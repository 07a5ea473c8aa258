/** An image's declarations, keywords and tables as a lexer and a reader take them. */
module ReadImageText {
  import opened Primitives
  import opened Text
  import opened XmlText
  import opened Locations
  import opened HeaderTree
  import opened HeaderDocument
  import opened HeaderTrees
  import PropertyTypes
  import HeaderText
  import opened HeaderLexing
  import opened WrittenElements
  import opened CorePieces
  import opened ImageText

  // -------------------------------------------------- attributes are unremarkable

  /** A name an unremarkable attribute may have. */
  predicate IsPlainName(key: string)
  {
    IsSimpleName(key) && key != "xmlns" && PlainKey(key)
  }

  lemma {:induction false} OneMorePlain(pairs: seq<(string, string)>, key: string, text: Option<string>)
    requires Unremarkable(pairs) && LacksKey(pairs, key) && IsPlainName(key)
    ensures Unremarkable(pairs + Given(key, text))
    ensures forall other :: LacksKey(pairs, other) && other != key ==> LacksKey(pairs + Given(key, text), other)
  {
    hide IsSimpleName;
    hide PlainKey;
    if text.Some? {
      OneMorePair(pairs, key, text.value);
    }
  }

  lemma {:induction false} StorageNames()
    ensures IsPlainName("sampleFormat") && IsPlainName("colorSpace") && IsPlainName("pixelStorage")
  {
  }

  lemma {:induction false} DeclaredNames()
    ensures IsPlainName("bounds") && IsPlainName("id") && IsPlainName("imageType") && IsPlainName("uuid")
    ensures IsPlainName("offset") && IsPlainName("orientation")
  {
  }

  /** Three attributes under different names. */
  lemma {:induction false} ThreePlain(a: (string, string), b: (string, string), c: (string, string))
    requires IsPlainName(a.0) && IsPlainName(b.0) && IsPlainName(c.0) && a.0 != b.0 && a.0 != c.0 && b.0 != c.0
    ensures Unremarkable([a, b, c])
    ensures forall other :: other != a.0 && other != b.0 && other != c.0 ==> LacksKey([a, b, c], other)
  {
    hide IsSimpleName;
    hide PlainKey;
  }

  /** The names that follow those of how samples are stored. */
  predicate IsLaterName(key: string)
  {
    key != "sampleFormat" && key != "colorSpace" && key != "pixelStorage"
  }

  lemma {:induction false} StorageUnremarkable(image: Image)
    ensures Unremarkable(StorageAttributes(image))
    ensures forall other :: IsLaterName(other) ==> LacksKey(StorageAttributes(image), other)
  {
    hide FormatName;
    hide IsPlainName;
    hide Unremarkable;
    StorageNames();
    ThreePlain(("sampleFormat", FormatName(image.format)), ("colorSpace", ColourName(image.colour)),
               ("pixelStorage", StorageName(image.storage)));
  }

  lemma {:induction false} DeclaredUnremarkable(image: Image)
    ensures Unremarkable(DeclaredAttributes(image)) && LacksKey(DeclaredAttributes(image), "geometry")
  {
    hide Unremarkable;
    hide LacksKey;
    hide IsPlainName;
    hide StorageAttributes;
    hide Given;
    hide OrientationGiven;
    StorageUnremarkable(image);
    DeclaredNames();
    var pairs := StorageAttributes(image);
    OneMorePlain(pairs, "bounds", image.bounds);
    pairs := pairs + Given("bounds", image.bounds);
    OneMorePlain(pairs, "id", image.id);
    pairs := pairs + Given("id", image.id);
    OneMorePlain(pairs, "imageType", image.kind);
    pairs := pairs + Given("imageType", image.kind);
    OneMorePlain(pairs, "uuid", image.uuid);
    pairs := pairs + Given("uuid", image.uuid);
    OneMorePlain(pairs, "offset", image.offset);
    pairs := pairs + Given("offset", image.offset);
    OneMorePlain(pairs, "orientation", OrientationGiven(image.orientation));
  }

  lemma {:induction false} PreviewUnremarkable(image: Image)
    ensures Unremarkable(PreviewAttributes(image)) && LacksKey(PreviewAttributes(image), "geometry")
  {
    hide Unremarkable;
    hide LacksKey;
    hide IsPlainName;
    hide StorageAttributes;
    hide Given;
    hide OrientationGiven;
    StorageUnremarkable(image);
    DeclaredNames();
    var pairs := StorageAttributes(image);
    OneMorePlain(pairs, "id", image.id);
    pairs := pairs + Given("id", image.id);
    OneMorePlain(pairs, "uuid", image.uuid);
    pairs := pairs + Given("uuid", image.uuid);
    OneMorePlain(pairs, "imageType", image.kind);
    pairs := pairs + Given("imageType", image.kind);
    OneMorePlain(pairs, "offset", image.offset);
    pairs := pairs + Given("offset", image.offset);
    OneMorePlain(pairs, "orientation", OrientationGiven(ShownOrientation(image)));
  }

  // -------------------------------------------------- each attribute says what it is given

  lemma {:induction false} LookupGiven(key: string, text: Option<string>)
    ensures forall other :: Lookup(Given(key, text), other) == if other == key then text else None
  {
    if text.Some? {
      forall other | other != key
        ensures Lookup([(key, text.value)], other) == None
      {
        LookupLacking([(key, text.value)], other);
      }
    }
  }

  lemma {:induction false} StorageLookups(image: Image)
    ensures var pairs := StorageAttributes(image);
      Lookup(pairs, "sampleFormat") == Some(FormatName(image.format))
      && Lookup(pairs, "colorSpace") == Some(ColourName(image.colour))
      && Lookup(pairs, "pixelStorage") == Some(StorageName(image.storage))
      && forall key :: IsLaterName(key) ==> Lookup(pairs, key) == None
  {
    hide FormatName;
    hide ColourName;
    hide StorageName;
    LookupThree(("sampleFormat", FormatName(image.format)), ("colorSpace", ColourName(image.colour)),
                ("pixelStorage", StorageName(image.storage)));
  }

  /** What an image's attributes say, key by key. */
  ghost predicate Declares(pairs: seq<(string, string)>, image: Image)
  {
    Lookup(pairs, "sampleFormat") == Some(FormatName(image.format))
    && Lookup(pairs, "colorSpace") == Some(ColourName(image.colour))
    && Lookup(pairs, "pixelStorage") == Some(StorageName(image.storage))
    && Lookup(pairs, "bounds") == image.bounds && Lookup(pairs, "id") == image.id
    && Lookup(pairs, "imageType") == image.kind && Lookup(pairs, "uuid") == image.uuid
    && Lookup(pairs, "offset") == image.offset && Lookup(pairs, "orientation") == OrientationGiven(image.orientation)
  }

  /** One more attribute says what it is given, and leaves the others alone. */
  lemma {:induction false} NextLookup(pairs: seq<(string, string)>, key: string, text: Option<string>)
    requires Lookup(pairs, key) == None
    ensures Lookup(pairs + Given(key, text), key) == text
    ensures forall other :: other != key ==> Lookup(pairs + Given(key, text), other) == Lookup(pairs, other)
  {
    hide Given;
    hide Lookup;
    LookupGiven(key, text);
    forall other
      ensures Lookup(pairs + Given(key, text), other) == FirstOf(Lookup(pairs, other), Lookup(Given(key, text), other))
    {
      LookupApart(pairs, Given(key, text), other);
    }
  }

  lemma {:induction false} DeclaredLookups(image: Image)
    ensures Declares(DeclaredAttributes(image), image)
  {
    hide Given;
    hide Lookup;
    hide StorageAttributes;
    hide OrientationGiven;
    hide FormatName;
    hide ColourName;
    hide StorageName;
    StorageLookups(image);
    var pairs := StorageAttributes(image);
    NextLookup(pairs, "bounds", image.bounds);
    pairs := pairs + Given("bounds", image.bounds);
    NextLookup(pairs, "id", image.id);
    pairs := pairs + Given("id", image.id);
    NextLookup(pairs, "imageType", image.kind);
    pairs := pairs + Given("imageType", image.kind);
    NextLookup(pairs, "uuid", image.uuid);
    pairs := pairs + Given("uuid", image.uuid);
    NextLookup(pairs, "offset", image.offset);
    pairs := pairs + Given("offset", image.offset);
    NextLookup(pairs, "orientation", OrientationGiven(image.orientation));
  }

  /** A thumbnail's attributes say the same, but for its bounds and for an orientation that changes nothing. */
  lemma {:induction false} PreviewLookups(image: Image)
    ensures Declares(PreviewAttributes(image), image.(bounds := None, orientation := ShownOrientation(image)))
  {
    hide Given;
    hide Lookup;
    hide StorageAttributes;
    hide OrientationGiven;
    hide ShownOrientation;
    hide FormatName;
    hide ColourName;
    hide StorageName;
    StorageLookups(image);
    var pairs := StorageAttributes(image);
    NextLookup(pairs, "id", image.id);
    pairs := pairs + Given("id", image.id);
    NextLookup(pairs, "uuid", image.uuid);
    pairs := pairs + Given("uuid", image.uuid);
    NextLookup(pairs, "imageType", image.kind);
    pairs := pairs + Given("imageType", image.kind);
    NextLookup(pairs, "offset", image.offset);
    pairs := pairs + Given("offset", image.offset);
    NextLookup(pairs, "orientation", OrientationGiven(ShownOrientation(image)));
  }

  // -------------------------------------------------- keywords and tables are core pieces

  lemma {:induction false} KeywordNames()
    ensures IsPlainName("name") && IsPlainName("value") && IsPlainName("comment") && IsSimpleName("FITSKeyword")
  {
  }

  lemma {:induction false} KeywordIsCore(k: Keyword)
    ensures CorePiece(KeywordPiece(k)) && KeywordPiece(k).tag.name == "FITSKeyword"
  {
    hide IsSimpleName;
    hide PlainKey;
    hide Unremarkable;
    hide IsCoreTag;
    KeywordNames();
    ThreePlain(("name", k.name), ("value", k.value), ("comment", k.comment));
    CoreTagIsCore("FITSKeyword", [("name", k.name), ("value", k.value), ("comment", k.comment)]);
  }

  lemma {:induction false} TableNames()
    ensures IsSimpleName("Table") && IsSimpleName("Structure") && IsSimpleName("Field")
    ensures IsSimpleName("Row") && IsSimpleName("Cell")
  {
  }

  lemma {:induction false} FieldKeyNames()
    ensures IsPlainName("id") && IsPlainName("type") && IsPlainName("format")
    ensures IsPlainName("header") && IsPlainName("value")
  {
  }

  lemma {:induction false} TableKeyNames()
    ensures IsPlainName("id") && IsPlainName("caption") && IsPlainName("comment")
    ensures IsPlainName("rows") && IsPlainName("columns")
  {
  }

  lemma {:induction false} NothingUnremarkable()
    ensures Unremarkable([])
    ensures forall key :: LacksKey([], key)
  {
  }

  lemma {:induction false} GivenIs(key: string, text: string)
    ensures Given(key, Some(text)) == [(key, text)]
  {
  }

  lemma {:induction false} FieldIsCore(f: Field)
    ensures CorePiece(FieldPiece(f))
  {
    hide IsSimpleName;
    hide PlainKey;
    hide Unremarkable;
    hide IsCoreTag;
    hide LacksKey;
    hide Given;
    hide IsPlainName;
    TableNames();
    FieldKeyNames();
    NothingUnremarkable();
    GivenIs("id", f.id);
    GivenIs("type", PropertyTypes.TypeName(f.kind));
    OneMorePlain([], "id", Some(f.id));
    var pairs := [] + Given("id", Some(f.id));
    OneMorePlain(pairs, "type", Some(PropertyTypes.TypeName(f.kind)));
    pairs := pairs + Given("type", Some(PropertyTypes.TypeName(f.kind)));
    assert pairs == [("id", f.id), ("type", PropertyTypes.TypeName(f.kind))];
    OneMorePlain(pairs, "format", f.format);
    pairs := pairs + Given("format", f.format);
    OneMorePlain(pairs, "header", f.header);
    CoreTagIsCore("Field", pairs + Given("header", f.header));
  }

  lemma {:induction false} TableAttributesPlain(t: Table)
    ensures Unremarkable(TableAttributes(t))
  {
    hide IsSimpleName;
    hide PlainKey;
    hide Unremarkable;
    hide LacksKey;
    hide Given;
    hide IsPlainName;
    TableKeyNames();
    NothingUnremarkable();
    var rows, columns := Decimal(|t.rows|), Decimal(|t.fields|);
    GivenIs("id", t.id);
    GivenIs("rows", rows);
    GivenIs("columns", columns);
    OneMorePlain([], "id", Some(t.id));
    var pairs := [] + Given("id", Some(t.id));
    assert pairs == [("id", t.id)];
    OneMorePlain(pairs, "caption", t.caption);
    pairs := pairs + Given("caption", t.caption);
    OneMorePlain(pairs, "comment", t.comment);
    pairs := pairs + Given("comment", t.comment);
    OneMorePlain(pairs, "rows", Some(rows));
    OneMorePlain(pairs + Given("rows", Some(rows)), "columns", Some(columns));
    assert TableAttributes(t) == pairs + [("rows", rows)] + [("columns", columns)];
  }

  /** Character data without a carriage return, which a lexer may take for a line end. */
  lemma {:induction false} CharactersAreCore(text: string)
    requires '\r' !in text
    ensures AllCore(CharacterPieces(text)) && Apart(CharacterPieces(text))
    ensures text != "" ==> (CharacterPieces(text)[0].Words? <==> !IsMarkup(text[0]))
    decreases |text|
  {
    if text != "" {
      if IsMarkup(text[0]) {
        CharactersAreCore(text[1..]);
        MarkupIsCore(text[0]);
      } else {
        var n := RunLength(text);
        CharactersAreCore(text[n..]);
        forall c | c in text[..n]
          ensures c != '&' && c != '<' && c != '>' && c != '\r'
        {
          assert !IsMarkup(c);
        }
      }
    }
  }

  lemma {:induction false} MarkupIsCore(c: char)
    requires IsMarkup(c)
    ensures CorePiece(Ref(MarkupName(c))) && ResolveEntity(MarkupName(c)) == Some([c])
  {
  }

  /** Character data prints as its escaped text. */
  lemma {:induction false} CharactersPrint(text: string)
    ensures HeaderText.PrintAll(CharacterPieces(text)) == Escaped(text, false)
    decreases |text|
  {
    hide HeaderText.PrintAll;
    hide Escaped;
    if text == "" {
      NothingPrints();
    } else if IsMarkup(text[0]) {
      CharactersPrint(text[1..]);
      FirstPrints(Ref(MarkupName(text[0])), CharacterPieces(text[1..]));
      MarkupPrints(text[0], text[1..]);
      assert text == [text[0]] + text[1..];
    } else {
      var n := RunLength(text);
      CharactersPrint(text[n..]);
      FirstPrints(Words(text[..n]), CharacterPieces(text[n..]));
      assert text == text[..n] + text[n..];
      EscapedConcat(text[..n], text[n..], false);
    }
  }

  lemma {:induction false} NothingPrints()
    ensures HeaderText.PrintAll([]) == Escaped("", false)
  {
  }

  lemma {:induction false} FirstPrints(piece: Piece, rest: seq<Piece>)
    ensures HeaderText.PrintAll([piece] + rest) == HeaderText.Print(piece) + HeaderText.PrintAll(rest)
  {
    assert ([piece] + rest)[1..] == rest;
  }

  lemma {:induction false} MarkupPrints(c: char, rest: string)
    requires IsMarkup(c)
    ensures Escaped([c] + rest, false) == HeaderText.Print(Ref(MarkupName(c))) + Escaped(rest, false)
  {
    assert ([c] + rest)[1..] == rest;
  }

  /** A table none of whose cells holds a carriage return as character data. */
  predicate IsLexableTable(t: Table)
  {
    forall i, j :: 0 <= i < |t.rows| && 0 <= j < |t.rows[i]| ==> IsLexableCell(t.rows[i][j])
  }

  predicate IsLexableCell(c: Cell) { c.text.Some? ==> '\r' !in c.text.value }

  predicate AllLexableTables(tables: seq<Table>)
  {
    forall i :: 0 <= i < |tables| ==> IsLexableTable(tables[i])
  }

  lemma {:induction false} CellIsCore(c: Cell)
    requires IsLexableCell(c)
    ensures CorePiece(CellPiece(c))
  {
    hide IsSimpleName;
    hide PlainKey;
    hide Unremarkable;
    hide IsCoreTag;
    hide CharacterPieces;
    TableNames();
    FieldKeyNames();
    NothingUnremarkable();
    CoreTagIsCore("Cell", []);
    if c.value.Some? {
      OneMorePlain([], "value", c.value);
      assert [] + Given("value", c.value) == [("value", c.value.value)];
      CoreTagIsCore("Cell", [("value", c.value.value)]);
    } else if c.text.Some? {
      CharactersAreCore(c.text.value);
    }
  }

  lemma {:induction false} RowsAreCore(rows: seq<seq<Cell>>)
    requires forall i, j :: 0 <= i < |rows| && 0 <= j < |rows[i]| ==> IsLexableCell(rows[i][j])
    ensures AllCore(RowPieces(rows))
  {
    hide IsSimpleName;
    hide Unremarkable;
    hide IsCoreTag;
    hide CellPiece;
    hide IsLexableCell;
    TableNames();
    NothingUnremarkable();
    CoreTagIsCore("Row", []);
    forall i | 0 <= i < |rows|
      ensures CorePiece(RowPieces(rows)[i])
    {
      var cells := CellPieces(rows[i]);
      forall j | 0 <= j < |rows[i]|
        ensures CorePiece(cells[j]) && !cells[j].Words?
      {
        CellIsCore(rows[i][j]);
        CellIsElement(rows[i][j]);
      }
    }
  }

  lemma {:induction false} CellIsElement(c: Cell)
    ensures IsElement(CellPiece(c))
  {
  }

  lemma {:induction false} TableIsCore(t: Table)
    requires IsLexableTable(t)
    ensures CorePiece(TablePiece(t)) && TablePiece(t).tag.name == "Table"
  {
    hide IsSimpleName;
    hide Unremarkable;
    hide IsCoreTag;
    hide FieldPiece;
    hide TableAttributes;
    TableNames();
    NothingUnremarkable();
    CoreTagIsCore("Structure", []);
    TableAttributesPlain(t);
    CoreTagIsCore("Table", TableAttributes(t));
    RowsAreCore(t.rows);
    var fields := FieldPieces(t.fields);
    forall i | 0 <= i < |fields|
      ensures CorePiece(fields[i]) && !fields[i].Words?
    {
      FieldIsCore(t.fields[i]);
      FieldIsElement(t.fields[i]);
    }
    var structure := Node(CoreTag("Structure", []), fields);
    assert CorePiece(structure);
    var items := [structure] + RowPieces(t.rows);
    forall i | 0 <= i < |items|
      ensures CorePiece(items[i]) && !items[i].Words?
    {
      assert i > 0 ==> items[i] == RowPieces(t.rows)[i - 1];
    }
  }

  lemma {:induction false} FieldIsElement(f: Field)
    ensures IsElement(FieldPiece(f))
  {
  }

  /** Elements of the format that can be lexed, and that keep out of the way of the images. */
  ghost predicate AllAside(pieces: seq<Piece>)
  {
    AllCore(pieces)
    && forall i :: 0 <= i < |pieces| ==>
       IsElement(pieces[i]) && (pieces[i].tag.name == "Table" || pieces[i].tag.name == "FITSKeyword")
  }

  lemma {:induction false} KeywordsAside(keywords: seq<Keyword>)
    ensures AllAside(KeywordPieces(keywords))
  {
    hide CorePiece;
    hide KeywordPiece;
    forall i | 0 <= i < |keywords|
      ensures CorePiece(KeywordPieces(keywords)[i]) && IsElement(KeywordPieces(keywords)[i])
      ensures KeywordPieces(keywords)[i].tag.name == "FITSKeyword"
    {
      KeywordIsCore(keywords[i]);
      assert IsElement(KeywordPiece(keywords[i])) by {
        KeywordIsElement(keywords[i]);
      }
    }
  }

  lemma {:induction false} KeywordIsElement(k: Keyword)
    ensures IsElement(KeywordPiece(k))
  {
  }

  lemma {:induction false} TablesAside(tables: seq<Table>)
    requires AllLexableTables(tables)
    ensures AllAside(TablePieces(tables))
  {
    hide CorePiece;
    hide TablePiece;
    hide IsLexableTable;
    forall i | 0 <= i < |tables|
      ensures CorePiece(TablePieces(tables)[i]) && IsElement(TablePieces(tables)[i])
      ensures TablePieces(tables)[i].tag.name == "Table"
    {
      TableIsElement(tables[i]);
      TableIsCore(tables[i]);
    }
  }

  lemma {:induction false} TableIsElement(t: Table)
    ensures IsElement(TablePiece(t))
  {
  }

  lemma {:induction false} AsideSurrounds(pieces: seq<Piece>)
    requires AllAside(pieces)
    ensures AllSurrounding(pieces)
  {
    hide CorePiece;
    hide Surrounding;
    forall i | 0 <= i < |pieces|
      ensures Surrounding(pieces[i])
    {
      CoreSurrounds(pieces[i]);
    }
  }

  lemma {:induction false} AsideLexable(pieces: seq<Piece>, scope: Scope)
    requires AllAside(pieces) && CoreByDefault(scope)
    ensures LexableElements(pieces, scope)
  {
    hide CorePiece;
    hide Printable;
    forall i | 0 <= i < |pieces|
      ensures Printable(pieces[i], scope)
    {
      CorePrintable(pieces[i], scope);
    }
  }

  // -------------------------------------------------- what normalization leaves of them

  function FoldedText(text: Option<string>): Option<string> { Mapped(Folded, text) }

  function DeclaredAsRead(image: Image): Image { WithTexts(image, Folded) }

  lemma {:induction false} GivenAsRead(key: string, text: Option<string>)
    ensures FoldedPairs(Given(key, text)) == Given(key, FoldedText(text))
  {
    if text.Some? {
      OneFolded(key, text.value);
    }
  }

  lemma {:induction false} NamesUnfoldedToo(image: Image)
    ensures !HasFoldedChar(FormatName(image.format)) && !HasFoldedChar(ColourName(image.colour))
    ensures !HasFoldedChar(StorageName(image.storage))
  {
  }

  lemma {:induction false} StorageAsRead(image: Image)
    ensures FoldedPairs(StorageAttributes(image)) == StorageAttributes(image)
  {
    hide FormatName;
    hide ColourName;
    hide HasFoldedChar;
    hide Folded;
    NamesUnfoldedToo(image);
    FoldedFixed(FormatName(image.format));
    FoldedFixed(ColourName(image.colour));
    FoldedFixed(StorageName(image.storage));
  }

  lemma {:induction false} DigitsUnfolded(n: nat, base: nat)
    requires 2 <= base <= 16
    ensures !HasFoldedChar(Digits(n, base))
  {
    DigitRunsAreTight(n, base);
    assert DigitValue('\t') == None && DigitValue('\r') == None && DigitValue('\n') == None;
  }

  lemma {:induction false} OrientationUnfolded(o: Orientation)
    ensures !HasFoldedChar(OrientationText(o))
  {
    hide Digits;
    DigitsUnfolded(if o.rotation < 0 then -o.rotation else o.rotation, 10);
  }

  lemma {:induction false} OrientationAsRead(o: Option<Orientation>)
    ensures FoldedText(OrientationGiven(o)) == OrientationGiven(o)
  {
    if o.Some? {
      OrientationUnfolded(o.value);
      FoldedFixed(OrientationText(o.value));
    }
  }

  lemma {:induction false} DeclaredAttributesAsRead(image: Image)
    ensures FoldedPairs(DeclaredAttributes(image)) == DeclaredAttributes(DeclaredAsRead(image))
  {
    hide FoldedPairs;
    hide Given;
    hide StorageAttributes;
    hide OrientationGiven;
    hide Mapped;
    var pairs := StorageAttributes(image);
    StorageAsRead(image);
    SameStorage(image, DeclaredAsRead(image));
    PairsFoldApart(pairs, Given("bounds", image.bounds));
    pairs := pairs + Given("bounds", image.bounds);
    PairsFoldApart(pairs, Given("id", image.id));
    pairs := pairs + Given("id", image.id);
    PairsFoldApart(pairs, Given("imageType", image.kind));
    pairs := pairs + Given("imageType", image.kind);
    PairsFoldApart(pairs, Given("uuid", image.uuid));
    pairs := pairs + Given("uuid", image.uuid);
    PairsFoldApart(pairs, Given("offset", image.offset));
    pairs := pairs + Given("offset", image.offset);
    PairsFoldApart(pairs, Given("orientation", OrientationGiven(image.orientation)));
    GivenAsRead("bounds", image.bounds);
    GivenAsRead("id", image.id);
    GivenAsRead("imageType", image.kind);
    GivenAsRead("uuid", image.uuid);
    GivenAsRead("offset", image.offset);
    GivenAsRead("orientation", OrientationGiven(image.orientation));
    OrientationAsRead(image.orientation);
  }

  lemma {:induction false} SameStorage(a: Image, b: Image)
    requires a.format == b.format && a.colour == b.colour && a.storage == b.storage
    ensures StorageAttributes(a) == StorageAttributes(b)
  {
  }

  lemma {:induction false} PreviewAttributesAsRead(image: Image)
    ensures FoldedPairs(PreviewAttributes(image)) == PreviewAttributes(DeclaredAsRead(image))
  {
    hide FoldedPairs;
    hide Given;
    hide StorageAttributes;
    hide OrientationGiven;
    hide Mapped;
    var pairs := StorageAttributes(image);
    StorageAsRead(image);
    SameStorage(image, DeclaredAsRead(image));
    PairsFoldApart(pairs, Given("id", image.id));
    pairs := pairs + Given("id", image.id);
    PairsFoldApart(pairs, Given("uuid", image.uuid));
    pairs := pairs + Given("uuid", image.uuid);
    PairsFoldApart(pairs, Given("imageType", image.kind));
    pairs := pairs + Given("imageType", image.kind);
    PairsFoldApart(pairs, Given("offset", image.offset));
    pairs := pairs + Given("offset", image.offset);
    PairsFoldApart(pairs, Given("orientation", OrientationGiven(ShownOrientation(image))));
    GivenAsRead("id", image.id);
    GivenAsRead("uuid", image.uuid);
    GivenAsRead("imageType", image.kind);
    GivenAsRead("offset", image.offset);
    GivenAsRead("orientation", OrientationGiven(ShownOrientation(image)));
    OrientationAsRead(ShownOrientation(image));
  }

  /** A lexer changes nothing in the text between elements. */
  lemma {:induction false} CharactersAsRead(text: string)
    ensures AllAsRead(CharacterPieces(text)) == CharacterPieces(text)
    decreases |text|
  {
    hide RunLength;
    if text != "" && IsMarkup(text[0]) {
      CharactersAsRead(text[1..]);
      FirstAsRead(Ref(MarkupName(text[0])), CharacterPieces(text[1..]));
    } else if text != "" {
      var n := RunLength(text);
      CharactersAsRead(text[n..]);
      FirstAsRead(Words(text[..n]), CharacterPieces(text[n..]));
    }
  }

  lemma {:induction false} FirstAsRead(first: Piece, rest: seq<Piece>)
    requires (first.Words? || first.Ref?) && AllAsRead(rest) == rest
    ensures AllAsRead([first] + rest) == [first] + rest
  {
    AllAsReadApart([first], rest);
  }

  function KeywordAsRead(k: Keyword): Keyword { Keyword(Folded(k.name), Folded(k.value), Folded(k.comment)) }

  function KeywordsAsRead(keywords: seq<Keyword>): (read: seq<Keyword>)
    ensures |read| == |keywords|
  {
    seq(|keywords|, i requires 0 <= i < |keywords| => KeywordAsRead(keywords[i]))
  }

  lemma {:induction false} KeywordPiecesAsRead(keywords: seq<Keyword>)
    ensures AllAsRead(KeywordPieces(keywords)) == KeywordPieces(KeywordsAsRead(keywords))
  {
    hide CoreTag;
    hide FoldedTag;
    forall i | 0 <= i < |keywords|
      ensures AsRead(KeywordPieces(keywords)[i]) == KeywordPieces(KeywordsAsRead(keywords))[i]
    {
      var k := keywords[i];
      CoreTagAsRead("FITSKeyword", [("name", k.name), ("value", k.value), ("comment", k.comment)]);
      assert FoldedPairs([("name", k.name), ("value", k.value), ("comment", k.comment)])
          == [("name", Folded(k.name)), ("value", Folded(k.value)), ("comment", Folded(k.comment))];
    }
  }

  function FieldAsRead(f: Field): Field
  {
    Field(Folded(f.id), f.kind, FoldedText(f.format), FoldedText(f.header))
  }

  function CellAsRead(c: Cell): Cell { c.(value := FoldedText(c.value)) }

  function RowAsRead(cells: seq<Cell>): (read: seq<Cell>)
    ensures |read| == |cells|
  {
    seq(|cells|, i requires 0 <= i < |cells| => CellAsRead(cells[i]))
  }

  function TableAsRead(t: Table): Table
  {
    Table(Folded(t.id), FoldedText(t.caption), FoldedText(t.comment),
          seq(|t.fields|, i requires 0 <= i < |t.fields| => FieldAsRead(t.fields[i])),
          seq(|t.rows|, i requires 0 <= i < |t.rows| => RowAsRead(t.rows[i])))
  }

  function TablesAsRead(tables: seq<Table>): (read: seq<Table>)
    ensures |read| == |tables|
  {
    seq(|tables|, i requires 0 <= i < |tables| => TableAsRead(tables[i]))
  }

  lemma {:induction false} TypeNameUnfolded(t: PropertyTypes.PropertyType)
    ensures !HasFoldedChar(PropertyTypes.TypeName(t))
  {
    if t.Single? || t.Vector? || t.Matrix? {
      ScalarNameUnfolded(t.s);
      PrefixUnfolded(t.s);
    }
    hide PropertyTypes.ScalarName;
    hide PropertyTypes.PrefixFor;
  }

  lemma {:induction false} ScalarNameUnfolded(s: PropertyTypes.Scalar)
    ensures !HasFoldedChar(PropertyTypes.ScalarName(s))
  {
  }

  lemma {:induction false} PrefixUnfolded(s: PropertyTypes.Scalar)
    ensures !HasFoldedChar(PropertyTypes.PrefixFor(s))
  {
  }

  lemma {:induction false} FieldPieceAsRead(f: Field)
    ensures AsRead(FieldPiece(f)) == FieldPiece(FieldAsRead(f))
  {
    hide FoldedPairs;
    hide Given;
    hide CoreTag;
    hide FoldedTag;
    hide FoldedText;
    hide Folded;
    hide HasFoldedChar;
    hide PropertyTypes.TypeName;
    TypeNameUnfolded(f.kind);
    FoldedFixed(PropertyTypes.TypeName(f.kind));
    var own := [("id", f.id), ("type", PropertyTypes.TypeName(f.kind))];
    PairsFoldApart(own + Given("format", f.format), Given("header", f.header));
    PairsFoldApart(own, Given("format", f.format));
    TwoFolded(own[0], own[1]);
    GivenAsRead("format", f.format);
    GivenAsRead("header", f.header);
    CoreTagAsRead("Field", own + Given("format", f.format) + Given("header", f.header));
  }

  lemma {:induction false} TwoFolded(a: (string, string), b: (string, string))
    ensures FoldedPairs([a, b]) == [(a.0, Folded(a.1)), (b.0, Folded(b.1))]
  {
  }

  lemma {:induction false} CellPieceAsRead(c: Cell)
    ensures AsRead(CellPiece(c)) == CellPiece(CellAsRead(c))
  {
    hide CoreTag;
    hide FoldedTag;
    hide CharacterPieces;
    hide AllAsRead;
    CoreTagAsRead("Cell", []);
    assert FoldedPairs([]) == [];
    if c.value.Some? {
      CoreTagAsRead("Cell", [("value", c.value.value)]);
      OneFolded("value", c.value.value);
    } else if c.text.Some? {
      CharactersAsRead(c.text.value);
    }
  }

  lemma {:induction false} RowPiecesAsRead(rows: seq<seq<Cell>>, read: seq<seq<Cell>>)
    requires |read| == |rows| && forall i :: 0 <= i < |rows| ==> read[i] == RowAsRead(rows[i])
    ensures AllAsRead(RowPieces(rows)) == RowPieces(read)
  {
    hide CoreTag;
    hide FoldedTag;
    hide CellPiece;
    hide CellAsRead;
    CoreTagAsRead("Row", []);
    assert FoldedPairs([]) == [];
    forall i | 0 <= i < |rows|
      ensures AsRead(RowPieces(rows)[i]) == RowPieces(read)[i]
    {
      forall j | 0 <= j < |rows[i]|
        ensures AsRead(CellPieces(rows[i])[j]) == CellPieces(read[i])[j]
      {
        CellPieceAsRead(rows[i][j]);
      }
      assert AllAsRead(CellPieces(rows[i])) == CellPieces(read[i]);
    }
  }

  lemma {:induction false} TableAttributesAsRead(t: Table)
    ensures FoldedPairs(TableAttributes(t)) == TableAttributes(TableAsRead(t))
  {
    hide FoldedPairs;
    hide Given;
    hide FoldedText;
    hide Digits;
    hide HasFoldedChar;
    hide Folded;
    var rows, columns := Decimal(|t.rows|), Decimal(|t.fields|);
    var size := [("rows", rows), ("columns", columns)];
    PairsFoldApart([("id", t.id)] + Given("caption", t.caption) + Given("comment", t.comment), size);
    PairsFoldApart([("id", t.id)] + Given("caption", t.caption), Given("comment", t.comment));
    PairsFoldApart([("id", t.id)], Given("caption", t.caption));
    OneFolded("id", t.id);
    GivenAsRead("caption", t.caption);
    GivenAsRead("comment", t.comment);
    DigitsUnfolded(|t.rows|, 10);
    DigitsUnfolded(|t.fields|, 10);
    FoldedFixed(rows);
    FoldedFixed(columns);
    TwoFolded(size[0], size[1]);
  }

  lemma {:induction false} TablePieceAsRead(t: Table)
    ensures AsRead(TablePiece(t)) == TablePiece(TableAsRead(t))
  {
    hide CoreTag;
    hide FoldedTag;
    hide TableAttributes;
    hide FieldPiece;
    hide FieldAsRead;
    hide RowPieces;
    var read := TableAsRead(t);
    var structure := Node(CoreTag("Structure", []), FieldPieces(t.fields));
    TableAttributesAsRead(t);
    CoreTagAsRead("Table", TableAttributes(t));
    CoreTagAsRead("Structure", []);
    assert FoldedPairs([]) == [];
    forall i | 0 <= i < |t.fields|
      ensures AsRead(FieldPieces(t.fields)[i]) == FieldPieces(read.fields)[i]
    {
      FieldPieceAsRead(t.fields[i]);
    }
    assert AllAsRead(FieldPieces(t.fields)) == FieldPieces(read.fields);
    assert AllAsRead([structure]) == [Node(CoreTag("Structure", []), FieldPieces(read.fields))];
    RowPiecesAsRead(t.rows, read.rows);
    AllAsReadApart([structure], RowPieces(t.rows));
  }

  lemma {:induction false} TablePiecesAsRead(tables: seq<Table>)
    ensures AllAsRead(TablePieces(tables)) == TablePieces(TablesAsRead(tables))
    ensures AllLexableTables(tables) ==> AllLexableTables(TablesAsRead(tables))
  {
    hide TablePiece;
    forall i | 0 <= i < |tables|
      ensures AsRead(TablePieces(tables)[i]) == TablePieces(TablesAsRead(tables))[i]
      ensures IsLexableTable(tables[i]) ==> IsLexableTable(TablesAsRead(tables)[i])
    {
      TablePieceAsRead(tables[i]);
    }
  }
}
