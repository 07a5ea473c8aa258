/** What the element of a written image yields to a reader: its blocks, and all it says. */
module ImageYields {
  import opened Primitives
  import opened Text
  import opened XmlText
  import opened GeometryAttribute
  import opened BlockCodec
  import Colour
  import opened HeaderTree
  import HeaderParser
  import opened HeaderDocument
  import opened HeaderTrees
  import opened HeaderLexing
  import opened ImageText
  import opened ImageReader
  import opened MonolithicWriter
  import opened WrittenElements
  import opened CorePieces
  import opened ReadImageText
  import opened TableReader
  import opened WrittenTables
  import opened WrittenHeader
  import opened WrittenText
  import opened LexedHeader
  import opened BlockReader

  // -------------------------------------------------- fetching through the locators written

  /** Every block's stored bytes come back through its own locator. */
  ghost predicate Fetchable(r: Reader, addressing: Addressing, blocks: seq<StoredBlock>)
  {
    Locatable(addressing, blocks)
    && forall i :: 0 <= i < |blocks| ==>
         StoredUnchecked(r, Located(LocationOf(addressing, blocks, i), blocks[i])) == Ok(blocks[i].bytes)
  }

  /** One block, from its data through the file and back. */
  lemma {:induction false} BlockSurvives(r: Reader, addressing: Addressing, blocks: seq<StoredBlock>, i: nat,
      data: seq<byte>, options: BlockOptions)
    requires Lawful(r.env.engine) && Fetchable(r, addressing, blocks)
    requires i < |blocks| && |data| < U64_LIMIT && Prepare(r.env.engine, data, options) == Ok(blocks[i])
    ensures Block(r, Located(LocationOf(addressing, blocks, i), blocks[i])) == Ok(data)
  {
    PreparedBlockFetched(r, Located(LocationOf(addressing, blocks, i), blocks[i]), data, options, blocks[i]);
  }

  /**
    What an element declares of an image, its texts put through `f`: it is read as that image exactly if the
    declaration is readable, by whatever parser of numbers, and its identifier is there either way.
   */
  ghost predicate YieldsDeclaration(e: Element, image: Image, f: string -> string)
  {
    e.Attr("id") == Mapped(f, image.id)
    && forall number: NumberParser ::
         (ImageOf(number, e).Ok? <==> IsReadableImage(number, WithTexts(image, f)))
         && (ImageOf(number, e).Ok? ==> ImageOf(number, e) == Ok(WithTexts(image, f)))
  }

  /** A thumbnail is declared without bounds, and without an orientation that changes nothing. */
  function AsPreview(image: Image): Image
  {
    image.(bounds := None,
           orientation := match image.orientation
                          case Some(o) => if o.rotation == 0 && !o.flip then None else Some(o)
                          case None => None)
  }

  ghost predicate YieldsPreview(e: Element, image: Image, f: string -> string)
  {
    forall number: NumberParser ::
      (ThumbnailOf(number, e).Ok? <==> IsReadableImage(number, WithTexts(AsPreview(image), f)))
      && (ThumbnailOf(number, e).Ok? ==> ThumbnailOf(number, e) == Ok(WithTexts(AsPreview(image), f)))
  }

  /** What an image element must yield: the declaration and the pixels it was written with. */
  ghost predicate YieldsImage(r: Reader, e: Element, image: PendingImage, f: string -> string)
  {
    Block(r, e.data) == Ok(image.data) && YieldsDeclaration(e, image.image, f)
  }

  /** Its only profile is the one given, with the embedded flag set. */
  ghost predicate YieldsProfile(r: Reader, e: Element, image: PendingImage)
  {
    var profiles := HeaderParser.Named(e.children, "ICCProfile");
    if image.iccProfile.None? then profiles == []
    else |profiles| == 1 && Block(r, profiles[0].data) == WithEmbeddedFlag(image.iccProfile.value)
  }

  /** Its only thumbnail is the one given. */
  ghost predicate YieldsThumbnail(r: Reader, e: Element, image: PendingImage, f: string -> string)
  {
    var thumbnails := HeaderParser.Named(e.children, "Thumbnail");
    if image.thumbnail.None? then thumbnails == []
    else
      |thumbnails| == 1 && Block(r, thumbnails[0].data) == Ok(image.thumbnail.value.data)
      && YieldsPreview(thumbnails[0], image.thumbnail.value.image, f)
  }

  /** Its keywords, its working space and its tables are those given, and so is everything else. */
  ghost predicate YieldsContent(e: Element, image: PendingImage, content: seq<Element>, display: seq<Element>,
      f: string -> string)
  {
    YieldsKeywords(e, image.keywords, f) && YieldsSpace(e, image.space, f) && YieldsTables(e, image.tables, f)
    && YieldsGiven(e, content + display)
    && IsInOrder(e, image, content, display, image.iccProfile.Some?, image.thumbnail.Some?)
  }

  /** What one image element must hold in all, with its texts put through `f`. */
  ghost predicate Holds(r: Reader, e: Element, image: PendingImage, content: seq<Element>, display: seq<Element>,
      f: string -> string)
  {
    YieldsImage(r, e, image, f) && YieldsProfile(r, e, image) && YieldsThumbnail(r, e, image, f)
    && YieldsContent(e, image, content, display, f)
  }

  /** What one image's element must yield once its attributes have been normalized. */
  ghost predicate Yields(r: Reader, e: Element, image: PendingImage)
  {
    Ordinary(AllAsRead(image.content)) && Ordinary(AllAsRead(image.display))
    && Holds(r, e, image, BuiltAll(AllAsRead(image.content)), BuiltAll(AllAsRead(image.display)), Folded)
  }

  // -------------------------------------------------- the written element holds its image

  /** The attributes between an element's geometry and the end say what they say wherever they stand. */
  lemma {:induction false} AttributesSurvive(name: string, shape: Shape, declared: seq<(string, string)>,
      addressing: Addressing, blocks: seq<StoredBlock>, i: nat)
    requires Locatable(addressing, blocks) && i < |blocks|
    ensures var e := LocatingElement(name, OwnAttributes(shape, declared), addressing, blocks, i);
      e.Attr("geometry") == Some(GeometryText(shape.dimensions, shape.channels))
      && forall key :: IsDeclaredKey(key) ==> e.Attr(key) == Lookup(declared, key)
  {
    hide Lookup;
    hide Locator;
    hide GeometryText;
    var rest := BlockPairs(blocks[i]) + [("location", Locator(addressing, blocks, i))];
    var geometry := [("geometry", GeometryText(shape.dimensions, shape.channels))];
    var pairs := ElementPairs(OwnAttributes(shape, declared), addressing, blocks, i);
    assert pairs == geometry + (declared + rest);
    LookupGiven("geometry", Some(GeometryText(shape.dimensions, shape.channels)));
    GivenIs("geometry", GeometryText(shape.dimensions, shape.channels));
    LookupApart(geometry, declared + rest, "geometry");
    forall key | IsDeclaredKey(key)
      ensures Lookup(pairs, key) == Lookup(declared, key)
    {
      BlockPairsLack(blocks[i], Locator(addressing, blocks, i), key);
      LookupLacking(rest, key);
      LookupApart(declared, rest, key);
      LookupApart(geometry, declared + rest, key);
    }
  }

  predicate IsDeclaredKey(key: string)
  {
    key != "geometry" && key != "compression" && key != "checksum" && key != "location"
  }

  lemma {:induction false} BlockPairsLack(b: StoredBlock, locator: string, key: string)
    requires IsDeclaredKey(key)
    ensures LacksKey(BlockPairs(b) + [("location", locator)], key)
  {
  }

  lemma {:induction false} DeclarationSurvives(image: Image, declared: seq<(string, string)>, name: string,
      addressing: Addressing, blocks: seq<StoredBlock>, i: nat)
    requires Locatable(addressing, blocks) && i < |blocks| && Declares(declared, image)
    ensures Says(LocatingElement(name, OwnAttributes(ShapeOf(image), declared), addressing, blocks, i), image)
  {
    hide Lookup;
    hide LocatingElement;
    hide GeometryText;
    hide FormatName;
    hide OrientationGiven;
    AttributesSurvive(name, ShapeOf(image), declared, addressing, blocks, i);
  }

  lemma {:induction false} SaidIsDeclared(e: Element, image: Image)
    requires Says(e, image) && e.name == "Image"
    ensures YieldsDeclaration(e, image, Same)
  {
    hide DeclaredIn;
    hide IsReadableImage;
    SameTexts(image);
    forall number: NumberParser
      ensures ImageOf(number, e).Ok? <==> IsReadableImage(number, image)
      ensures ImageOf(number, e).Ok? ==> ImageOf(number, e) == Ok(image)
    {
      DeclarationReadsExactly(number, e, image);
    }
  }

  lemma {:induction false} SaidIsPreview(e: Element, image: Image)
    requires Says(e, AsPreview(image)) && e.name == "Thumbnail"
    ensures YieldsPreview(e, image, Same)
  {
    hide DeclaredIn;
    hide IsReadableImage;
    hide AsPreview;
    SameTexts(AsPreview(image));
    var renamed := e.(name := "Image");
    forall number: NumberParser
      ensures ThumbnailOf(number, e).Ok? <==> IsReadableImage(number, AsPreview(image))
      ensures ThumbnailOf(number, e).Ok? ==> ThumbnailOf(number, e) == Ok(AsPreview(image))
    {
      assert Says(renamed, AsPreview(image));
      DeclarationReadsExactly(number, renamed, AsPreview(image));
    }
  }

  lemma {:induction false} SameTexts(image: Image)
    ensures WithTexts(image, Same) == image
  {
  }

  /** The element an image is written as holds that image, and is read for its blocks and for all it says. */
  lemma {:induction false} ImageSurvives(r: Reader, image: PendingImage, owned: ImageBlocks, addressing: Addressing,
      blocks: seq<StoredBlock>)
    requires Lawful(r.env.engine) && Fetchable(r, addressing, blocks)
    requires Fitting(image) && WritableImage(image)
    requires InRange(image, owned, blocks) && Placed(r.env.engine, blocks, image, owned)
    ensures Ordinary(image.content) && Ordinary(image.display)
    ensures Holds(r, ImageElement(image, owned, addressing, blocks), image,
                  BuiltAll(image.content), BuiltAll(image.display), Same)
  {
    hide Block;
    hide Built;
    hide Meaningful;
    hide AllGiven;
    hide YieldsDeclaration;
    hide YieldsPreview;
    hide YieldsGiven;
    hide YieldsKeywords;
    hide YieldsSpace;
    hide YieldsTables;
    hide IsInOrder;
    hide HeaderParser.Named;
    OrderSurvives(image, owned, addressing, blocks);
    GivenSurvives(image, owned, addressing, blocks);
    KeywordsSurvive(image, owned, addressing, blocks);
    SpaceSurvives(image, owned, addressing, blocks);
    TablesSurvive(image, owned, addressing, blocks);
    PixelsSurvive(r, image, owned, addressing, blocks);
    ProfileSurvives(r, image, owned, addressing, blocks);
    ThumbnailSurvives(r, image, owned, addressing, blocks);
  }

  lemma {:induction false} PixelsSurvive(r: Reader, image: PendingImage, owned: ImageBlocks, addressing: Addressing,
      blocks: seq<StoredBlock>)
    requires Lawful(r.env.engine) && Fetchable(r, addressing, blocks)
    requires Fitting(image) && WritableImage(image)
    requires InRange(image, owned, blocks) && Placed(r.env.engine, blocks, image, owned)
    ensures YieldsImage(r, ImageElement(image, owned, addressing, blocks), image, Same)
  {
    hide Block;
    hide LocationOf;
    hide ElementPairs;
    hide Lookup;
    hide YieldsDeclaration;
    hide DeclaredAttributes;
    hide Declares;
    BlockSurvives(r, addressing, blocks, owned.data, image.data, image.options);
    DeclaredLookups(image.image);
    DeclarationSurvives(image.image, DeclaredAttributes(image.image), "Image", addressing, blocks, owned.data);
    var e := ImageElement(image, owned, addressing, blocks);
    assert Says(e, image.image);
    SaidIsDeclared(e, image.image);
  }

  lemma {:induction false} ProfileSurvives(r: Reader, image: PendingImage, owned: ImageBlocks, addressing: Addressing,
      blocks: seq<StoredBlock>)
    requires Lawful(r.env.engine) && Fetchable(r, addressing, blocks)
    requires Fitting(image) && WritableImage(image)
    requires InRange(image, owned, blocks) && Placed(r.env.engine, blocks, image, owned)
    ensures YieldsProfile(r, ImageElement(image, owned, addressing, blocks), image)
  {
    hide Block;
    hide LocationOf;
    hide ElementPairs;
    hide ImageElement;
    hide HeaderParser.Named;
    NamedHere(image, owned, addressing, blocks, "ICCProfile");
    if image.iccProfile.Some? {
      BlockSurvives(r, addressing, blocks, owned.icc.value, WithEmbeddedFlag(image.iccProfile.value).value, AS_GIVEN);
    }
  }

  lemma {:induction false} ThumbnailSurvives(r: Reader, image: PendingImage, owned: ImageBlocks,
      addressing: Addressing, blocks: seq<StoredBlock>)
    requires Lawful(r.env.engine) && Fetchable(r, addressing, blocks)
    requires Fitting(image) && WritableImage(image)
    requires InRange(image, owned, blocks) && Placed(r.env.engine, blocks, image, owned)
    ensures YieldsThumbnail(r, ImageElement(image, owned, addressing, blocks), image, Same)
  {
    hide Block;
    hide LocationOf;
    hide ElementPairs;
    hide Lookup;
    hide ImageElement;
    hide HeaderParser.Named;
    hide YieldsPreview;
    hide PreviewAttributes;
    hide Declares;
    NamedHere(image, owned, addressing, blocks, "Thumbnail");
    if image.thumbnail.Some? {
      var preview := image.thumbnail.value;
      BlockSurvives(r, addressing, blocks, owned.thumbnail.value, preview.data, preview.options);
      PreviewLookups(preview.image);
      DeclarationSurvives(AsPreview(preview.image), PreviewAttributes(preview.image), "Thumbnail", addressing, blocks,
                          owned.thumbnail.value);
      SaidIsPreview(ThumbnailElements(image, owned, addressing, blocks)[0], preview.image);
    }
  }

  // -------------------------------------------------- what normalization leaves of an image

  lemma {:induction false} KeywordsAsGiven(e: Element, keywords: seq<Keyword>)
    requires YieldsKeywords(e, KeywordsAsRead(keywords), Same)
    ensures YieldsKeywords(e, keywords, Folded)
  {
    hide HeaderParser.Named;
    hide Lookup;
    hide Folded;
    var es := HeaderParser.Named(e.children, "FITSKeyword");
    forall i | 0 <= i < |es|
      ensures YieldsKeyword(es[i], keywords[i], Folded)
    {
      assert YieldsKeyword(es[i], KeywordsAsRead(keywords)[i], Same);
    }
  }

  lemma {:induction false} SpaceAsGiven(e: Element, space: Option<WorkingSpace>)
    requires YieldsSpace(e, SpaceAsRead(space), Same)
    ensures YieldsSpace(e, space, Folded)
  {
    hide HeaderParser.Named;
    hide Colour.Derived;
    hide Folded;
  }

  lemma {:induction false} TablesAsGiven(e: Element, tables: seq<Table>)
    requires YieldsTables(e, TablesAsRead(tables), Same)
    ensures YieldsTables(e, tables, Folded)
  {
    hide HeaderParser.Named;
    hide YieldsTable;
    var es := HeaderParser.Named(e.children, "Table");
    forall i | 0 <= i < |es|
      ensures YieldsTable(es[i], tables[i], Folded)
    {
      assert YieldsTable(es[i], TablesAsRead(tables)[i], Same);
      TableAsGiven(es[i], tables[i]);
    }
  }

  lemma {:induction false} TableAsGiven(e: Element, t: Table)
    requires YieldsTable(e, TableAsRead(t), Same)
    ensures YieldsTable(e, t, Folded)
  {
    hide TableOf;
    hide IsReadableTable;
    hide IsTableRead;
    ReadableAsGiven(t);
    forall h: HeaderParser.Header
      ensures TableOf(h, e).Ok? <==> IsReadableTable(t, Folded)
      ensures TableOf(h, e).Ok? ==> IsTableRead(TableOf(h, e).value, t, Folded)
    {
      if TableOf(h, e).Ok? {
        ReadAsGiven(TableOf(h, e).value, t);
      }
    }
  }

  lemma {:induction false} ReadableAsGiven(t: Table)
    ensures IsReadableTable(TableAsRead(t), Same) <==> IsReadableTable(t, Folded)
  {
    hide Folded;
    hide CellAsRead;
    var read := TableAsRead(t);
    assert |read.fields| == |t.fields| && |read.rows| == |t.rows|;
    assert forall i :: 0 <= i < |t.fields| ==> read.fields[i].id == Folded(t.fields[i].id);
    assert forall i :: 0 <= i < |t.fields| ==> read.fields[i].kind == t.fields[i].kind;
    assert forall i :: 0 <= i < |t.rows| ==> |read.rows[i]| == |t.rows[i]|;
  }

  lemma {:induction false} ReadAsGiven(read: Table, t: Table)
    requires IsTableRead(read, TableAsRead(t), Same)
    ensures IsTableRead(read, t, Folded)
  {
    hide Folded;
    var raw := TableAsRead(t);
    forall i | 0 <= i < |t.rows|
      ensures IsRowRead(read.rows[i], t.rows[i], Folded)
    {
      assert IsRowRead(read.rows[i], raw.rows[i], Same);
      forall j | 0 <= j < |t.rows[i]|
        ensures IsCellRead(read.rows[i][j], t.rows[i][j], Folded)
      {
        assert IsCellRead(read.rows[i][j], raw.rows[i][j], Same);
      }
    }
    forall i | 0 <= i < |t.fields|
      ensures IsFieldRead(read.fields[i], t.fields[i], Folded)
    {
      assert IsFieldRead(read.fields[i], raw.fields[i], Same);
    }
  }

  lemma {:induction false} DeclarationAsGiven(image: Image)
    ensures WithTexts(WithTexts(image, Folded), Same) == WithTexts(image, Folded)
    ensures WithTexts(AsPreview(WithTexts(image, Folded)), Same) == WithTexts(AsPreview(image), Folded)
  {
  }

  lemma {:induction false} ContentAsGiven(e: Element, image: PendingImage, content: seq<Element>,
      display: seq<Element>)
    requires YieldsContent(e, ImageAsRead(image), content, display, Same)
    ensures YieldsContent(e, image, content, display, Folded)
  {
    hide Folded;
    hide YieldsKeywords;
    hide YieldsSpace;
    hide YieldsTables;
    hide YieldsGiven;
    hide Colour.Derived;
    hide NamesOf;
    hide Repeated;
    KeywordsAsGiven(e, image.keywords);
    SpaceAsGiven(e, image.space);
    TablesAsGiven(e, image.tables);
  }

  lemma {:induction false} ImageAsGiven(r: Reader, e: Element, image: PendingImage)
    requires YieldsImage(r, e, ImageAsRead(image), Same)
    ensures YieldsImage(r, e, image, Folded)
  {
    hide Folded;
    hide Block;
    hide IsReadableImage;
    hide ImageOf;
    assert Mapped(Same, WithTexts(image.image, Folded).id) == Mapped(Folded, image.image.id);
    DeclarationAsGiven(image.image);
    hide WithTexts;
  }

  lemma {:induction false} ThumbnailAsGiven(r: Reader, e: Element, image: PendingImage)
    requires YieldsThumbnail(r, e, ImageAsRead(image), Same)
    ensures YieldsThumbnail(r, e, image, Folded)
  {
    hide Folded;
    hide Block;
    hide IsReadableImage;
    hide ThumbnailOf;
    hide HeaderParser.Named;
    hide WithTexts;
    hide AsPreview;
    if image.thumbnail.Some? {
      DeclarationAsGiven(image.thumbnail.value.image);
    }
  }

  /** An element that holds what normalization leaves of an image yields that image. */
  lemma {:induction false} HeldAsRead(r: Reader, e: Element, image: PendingImage)
    requires Ordinary(AllAsRead(image.content)) && Ordinary(AllAsRead(image.display))
    requires Holds(r, e, ImageAsRead(image),
                   BuiltAll(AllAsRead(image.content)), BuiltAll(AllAsRead(image.display)), Same)
    ensures Yields(r, e, image)
  {
    hide YieldsContent;
    hide YieldsImage;
    hide YieldsThumbnail;
    hide HeaderParser.Named;
    hide Block;
    hide Built;
    hide Meaningful;
    ContentAsGiven(e, image, BuiltAll(AllAsRead(image.content)), BuiltAll(AllAsRead(image.display)));
    ImageAsGiven(r, e, image);
    ThumbnailAsGiven(r, e, image);
  }

  lemma {:induction false} SameDataAsRead(engine: Engine, image: PendingImage, owned: ImageBlocks,
      blocks: seq<StoredBlock>)
    requires Fitting(image)
    ensures Fitting(ImageAsRead(image))
    ensures Placed(engine, blocks, image, owned) ==> Placed(engine, blocks, ImageAsRead(image), owned)
  {
  }
}
