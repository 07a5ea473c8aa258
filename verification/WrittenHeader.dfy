/** What a reader finds in a written header: every image, with the block references it was written with. */
module WrittenHeader {
  import opened Primitives
  import Text
  import opened Locations
  import opened BlockCodec
  import opened HeaderTree
  import opened HeaderMachine
  import opened HeaderParser
  import opened HeaderDocument
  import opened HeaderTrees
  import HeaderLength
  import opened ImageText
  import opened MonolithicWriter
  import opened WrittenElements
  import opened ReadImageText
  import Colour

  // -------------------------------------------------- an image as it is read

  predicate Locatable(addressing: Addressing, blocks: seq<StoredBlock>)
  {
    match addressing
    case Attached(dataAt) => dataAt + |BlockBytes(blocks)| < U64_LIMIT
    case Distributed(_) => |blocks| < U64_LIMIT - 1
  }

  /** Where a reader takes a written locator to point. */
  function LocationOf(addressing: Addressing, blocks: seq<StoredBlock>, i: nat): Location
    requires Locatable(addressing, blocks) && i < |blocks|
  {
    match addressing
    case Attached(dataAt) =>
      OffsetStep(blocks, i);
      HeaderLength.OffsetBound(blocks, i + 1);
      Attachment(dataAt + Offset(blocks, i), |blocks[i].bytes|)
    case Distributed(name) => Path(Text.TrimEnd(HEADER_DIR_TOKEN + "/" + name), Some(BlockId(i)))
  }

  lemma {:induction false} LocatorReadsBack(addressing: Addressing, blocks: seq<StoredBlock>, i: nat)
    requires Locatable(addressing, blocks) && i < |blocks|
    ensures ParseLocation(Locator(addressing, blocks, i)) == Ok(LocationOf(addressing, blocks, i))
  {
    if addressing.Attached? {
      AttachedReadsBack(addressing.dataAt, blocks, i);
    } else {
      ExternalReads(addressing.blocksFile, BlockId(i));
    }
  }

  lemma {:induction false} AttachedReadsBack(dataAt: nat, blocks: seq<StoredBlock>, i: nat)
    requires Locatable(Attached(dataAt), blocks) && i < |blocks|
    ensures ParseLocation(AttachmentText(dataAt + Offset(blocks, i), |blocks[i].bytes|))
            == Ok(LocationOf(Attached(dataAt), blocks, i))
  {
    OffsetStep(blocks, i);
    HeaderLength.OffsetBound(blocks, i + 1);
    AttachmentReadsBack(dataAt + Offset(blocks, i), |blocks[i].bytes|);
  }

  /** The element that locates block `i`, as it is read. */
  function LocatingElement(name: string, own: seq<(string, string)>, addressing: Addressing,
      blocks: seq<StoredBlock>, i: nat): Element
    requires Locatable(addressing, blocks) && i < |blocks|
  {
    CoreElement(name, ElementPairs(own, addressing, blocks, i), Located(LocationOf(addressing, blocks, i), blocks[i]))
  }

  lemma {:induction false} LocatingTagReads(name: string, own: seq<(string, string)>, addressing: Addressing,
      blocks: seq<StoredBlock>, i: nat)
    requires Locatable(addressing, blocks) && i < |blocks| && Describable(blocks[i]) && PlainPairs(own) && ':' !in name
    ensures TagElement(CoreTag(name, ElementPairs(own, addressing, blocks, i)))
         == Ok(LocatingElement(name, own, addressing, blocks, i))
    ensures LocatingElement(name, own, addressing, blocks, i).Attr("uid") == None
  {
    LocatorReadsBack(addressing, blocks, i);
    ElementPairsRead(own, addressing, blocks, i, LocationOf(addressing, blocks, i));
    ElementKeys(own, addressing, blocks, i);
    CoreTagReads(name, ElementPairs(own, addressing, blocks, i), Located(LocationOf(addressing, blocks, i), blocks[i]));
    NoUidKey(ElementPairs(own, addressing, blocks, i));
  }

  /** A working space whose attributes say nothing about data blocks. */
  ghost predicate WritableSpace(space: WorkingSpace)
  {
    Colour.Derived(space.x, space.y).Some? ==> PlainPairs(space.attributes(Colour.Derived(space.x, space.y).value))
  }

  lemma {:induction false} SpaceSurrounds(image: PendingImage)
    requires WritableImage(image)
    ensures AllSurrounding(SpacePieces(image.space))
  {
    hide Colour.Derived;
    hide Surrounding;
    if image.space.Some? && !Degenerate(image) {
      var space := image.space.value;
      PlainLeafSurrounds("RGBWorkingSpace", space.attributes(Colour.Derived(space.x, space.y).value));
    }
  }

  lemma {:induction false} AncillarySurrounds(image: PendingImage)
    requires WritableImage(image)
    ensures AllSurrounding(Ancillary(image))
  {
    hide Surrounding;
    hide KeywordPieces;
    hide SpacePieces;
    KeywordsAside(image.keywords);
    AsideSurrounds(KeywordPieces(image.keywords));
    SpaceSurrounds(image);
  }

  /** Elements given as they are, which keep out of the way of those the writer makes. */
  ghost predicate AllGiven(pieces: seq<Piece>)
  {
    AllSurrounding(pieces)
    && forall i :: 0 <= i < |pieces| ==>
       var name := Built(pieces[i]).name;
       name != "FITSKeyword" && name != "RGBWorkingSpace" && name != "Table"
  }

  /** An image whose own attributes and surroundings say nothing about data blocks. */
  ghost predicate WritableImage(image: PendingImage)
  {
    AllGiven(image.content) && AllGiven(image.display) && AllLexableTables(image.tables)
    && (image.space.Some? ==> WritableSpace(image.space.value))
  }

  lemma {:induction false} OwnAttributesPlain(shape: Shape, attributes: seq<(string, string)>)
    requires PlainPairs(attributes)
    ensures PlainPairs(OwnAttributes(shape, attributes))
  {
    var pairs := OwnAttributes(shape, attributes);
    forall i | 0 <= i < |pairs|
      ensures PlainKey(pairs[i].0)
    {
      assert i > 0 ==> pairs[i] == attributes[i - 1];
    }
  }

  lemma {:induction false} ImageOwnPlain(image: PendingImage)
    ensures PlainPairs(ImageOwn(image))
  {
    hide DeclaredAttributes;
    DeclaredUnremarkable(image.image);
    OwnAttributesPlain(ShapeOf(image.image), DeclaredAttributes(image.image));
  }

  lemma {:induction false} PreviewOwnPlain(preview: PendingThumbnail)
    ensures PlainPairs(PreviewOwn(preview))
  {
    hide PreviewAttributes;
    PreviewUnremarkable(preview.image);
    OwnAttributesPlain(ShapeOf(preview.image), PreviewAttributes(preview.image));
  }

  ghost predicate AllDescribable(blocks: seq<StoredBlock>)
  {
    forall i :: 0 <= i < |blocks| ==> Describable(blocks[i])
  }

  /** The elements of the extra blocks, as they are read. */
  function ExtraElements(image: PendingImage, owned: ImageBlocks, addressing: Addressing,
      blocks: seq<StoredBlock>): seq<Element>
    requires InRange(image, owned, blocks) && Locatable(addressing, blocks)
  {
    ProfileElements(owned, addressing, blocks) + ThumbnailElements(image, owned, addressing, blocks)
  }

  function ProfileElements(owned: ImageBlocks, addressing: Addressing, blocks: seq<StoredBlock>): seq<Element>
    requires Locatable(addressing, blocks) && (owned.icc.Some? ==> owned.icc.value < |blocks|)
  {
    if owned.icc.Some? then [LocatingElement("ICCProfile", [], addressing, blocks, owned.icc.value)] else []
  }

  function ThumbnailElements(image: PendingImage, owned: ImageBlocks, addressing: Addressing,
      blocks: seq<StoredBlock>): seq<Element>
    requires Locatable(addressing, blocks) && (owned.thumbnail.Some? ==> owned.thumbnail.value < |blocks|)
  {
    if owned.thumbnail.Some?
    then [LocatingElement("Thumbnail", ThumbnailAttributes(image), addressing, blocks, owned.thumbnail.value)]
    else []
  }

  /** One leaf element that locates a block, among document elements and as it is read. */
  lemma {:induction false} LeafReads(name: string, own: seq<(string, string)>, addressing: Addressing,
      blocks: seq<StoredBlock>, i: nat)
    requires Locatable(addressing, blocks) && i < |blocks| && Describable(blocks[i]) && PlainPairs(own)
    requires ':' !in name && name != "Data"
    ensures var leaf := Leaf(CoreTag(name, ElementPairs(own, addressing, blocks, i)));
      Ordinary([leaf]) && BuiltAll([leaf]) == [LocatingElement(name, own, addressing, blocks, i)]
    ensures Unidentified(LocatingElement(name, own, addressing, blocks, i))
  {
    LocatingTagReads(name, own, addressing, blocks, i);
    ChildlessUnidentified(LocatingElement(name, own, addressing, blocks, i));
  }

  /** A run of pieces is read as these elements, which carry no identifiers. */
  ghost predicate ReadAs(pieces: seq<Piece>, es: seq<Element>)
  {
    Ordinary(pieces) && BuiltAll(pieces) == es && forall i :: 0 <= i < |es| ==> Unidentified(es[i])
  }

  lemma {:induction false} MaybeLeafReads(present: bool, name: string, own: seq<(string, string)>,
      addressing: Addressing, blocks: seq<StoredBlock>, i: nat)
    requires Locatable(addressing, blocks) && AllDescribable(blocks) && PlainPairs(own) && (present ==> i < |blocks|)
    requires ':' !in name && name != "Data"
    ensures ReadAs(MaybeLeaf(present, name, own, addressing, blocks, i),
                   if present then [LocatingElement(name, own, addressing, blocks, i)] else [])
  {
    if present {
      LeafReads(name, own, addressing, blocks, i);
    }
  }

  lemma {:induction false} ReadAsConcat(a: seq<Piece>, b: seq<Piece>, x: seq<Element>, y: seq<Element>)
    requires ReadAs(a, x) && ReadAs(b, y)
    ensures ReadAs(a + b, x + y)
  {
    BuiltAllConcat(a, b);
  }

  lemma {:induction false} ExtrasRead(image: PendingImage, owned: ImageBlocks, addressing: Addressing,
      blocks: seq<StoredBlock>)
    requires InRange(image, owned, blocks) && Locatable(addressing, blocks) && AllDescribable(blocks)
    requires WritableImage(image)
    ensures ReadAs(ExtraPieces(image, owned, addressing, blocks), ExtraElements(image, owned, addressing, blocks))
  {
    ThumbnailPlain(image);
    MaybeLeafReads(owned.icc.Some?, "ICCProfile", [], addressing, blocks, owned.icc.GetOr(0));
    MaybeLeafReads(owned.thumbnail.Some?, "Thumbnail", ThumbnailAttributes(image), addressing, blocks,
                   owned.thumbnail.GetOr(0));
    ReadAsConcat(MaybeLeaf(owned.icc.Some?, "ICCProfile", [], addressing, blocks, owned.icc.GetOr(0)),
                 MaybeLeaf(owned.thumbnail.Some?, "Thumbnail", ThumbnailAttributes(image), addressing, blocks,
                           owned.thumbnail.GetOr(0)),
                 ProfileElements(owned, addressing, blocks), ThumbnailElements(image, owned, addressing, blocks));
  }

  lemma {:induction false} ThumbnailPlain(image: PendingImage)
    ensures PlainPairs(ThumbnailAttributes(image))
  {
    if image.thumbnail.Some? {
      PreviewOwnPlain(image.thumbnail.value);
    }
  }

  ghost function BuiltAncillary(image: PendingImage): seq<Element>
    requires WritableImage(image)
  {
    AncillarySurrounds(image);
    BuiltAll(Ancillary(image))
  }

  lemma {:induction false} TablesSurround(image: PendingImage)
    requires WritableImage(image)
    ensures AllSurrounding(TablePieces(image.tables))
  {
    hide TablePieces;
    TablesAside(image.tables);
    AsideSurrounds(TablePieces(image.tables));
  }

  ghost function BuiltTables(image: PendingImage): seq<Element>
    requires WritableImage(image)
  {
    TablesSurround(image);
    BuiltAll(TablePieces(image.tables))
  }

  /** What an image piece is read as. */
  ghost function ImageElement(image: PendingImage, owned: ImageBlocks, addressing: Addressing,
      blocks: seq<StoredBlock>): Element
    requires InRange(image, owned, blocks) && Locatable(addressing, blocks) && WritableImage(image)
  {
    LocatingElement("Image", ImageOwn(image), addressing, blocks, owned.data).(
      children := BuiltAncillary(image) + ExtraElements(image, owned, addressing, blocks) + BuiltTables(image))
  }

  lemma {:induction false} ImageReads(image: PendingImage, owned: ImageBlocks, addressing: Addressing,
      blocks: seq<StoredBlock>)
    requires InRange(image, owned, blocks) && Locatable(addressing, blocks) && AllDescribable(blocks)
    requires WritableImage(image)
    ensures Meaningful(ImagePiece(image, owned, addressing, blocks))
    ensures Built(ImagePiece(image, owned, addressing, blocks)) == ImageElement(image, owned, addressing, blocks)
  {
    hide Ancillary;
    hide ExtraPieces;
    hide ExtraElements;
    hide ElementPairs;
    hide LocationOf;
    hide Filled;
    hide TagElement;
    var extras := ExtraPieces(image, owned, addressing, blocks);
    ImageOwnPlain(image);
    LocatingTagReads("Image", ImageOwn(image), addressing, blocks, owned.data);
    ExtrasRead(image, owned, addressing, blocks);
    AncillarySurrounds(image);
    TablesSurround(image);
    BuiltAllConcat(Ancillary(image), extras);
    BuiltAllConcat(Ancillary(image) + extras, TablePieces(image.tables));
    var e := LocatingElement("Image", ImageOwn(image), addressing, blocks, owned.data);
    var items := Ancillary(image) + extras + TablePieces(image.tables);
    OrdinaryFills(e, items);
    assert [] + BuiltAll(items) == BuiltAll(items);
  }

  lemma {:induction false} NoImageSurrounds(pieces: seq<Piece>)
    requires AllSurrounding(pieces)
    ensures Named(BuiltAll(pieces), "Image") == []
  {
    NamedNone(BuiltAll(pieces), "Image");
  }

  lemma {:induction false} ImageUnidentified(image: PendingImage, owned: ImageBlocks, addressing: Addressing,
      blocks: seq<StoredBlock>)
    requires InRange(image, owned, blocks) && Locatable(addressing, blocks) && AllDescribable(blocks)
    requires WritableImage(image)
    ensures Unidentified(ImageElement(image, owned, addressing, blocks))
  {
    hide ElementPairs;
    hide LocationOf;
    hide ExtraElements;
    hide ExtraPieces;
    hide Ancillary;
    var e := ImageElement(image, owned, addressing, blocks);
    ImageOwnPlain(image);
    LocatingTagReads("Image", ImageOwn(image), addressing, blocks, owned.data);
    ExtrasRead(image, owned, addressing, blocks);
    AncillarySurrounds(image);
    TablesSurround(image);
    UnidentifiedAll(e.children);
    assert Preorder(e) == [e] + PreorderAll(e.children);
  }

  // -------------------------------------------------- the whole header as it is read

  lemma {:induction false} RawIsWellFormed(pairs: seq<(string, string)>)
    ensures WellFormed(RawAttributes(pairs))
  {
    if pairs != [] {
      RawIsWellFormed(pairs[1..]);
      var raw := RawAttributes(pairs);
      assert forall i :: 0 < i < |raw| ==> raw[i] == RawAttributes(pairs[1..])[i - 1];
    }
  }

  /** The attributes of a run of pairs, by their local names. */
  function LocalPairs(pairs: seq<(string, string)>): seq<(string, string)>
  {
    RawIsWellFormed(pairs);
    Pairs(RawAttributes(pairs))
  }

  /** The root's attributes by their local names. */
  function RootPairs(frame: Frame): seq<(string, string)>
  {
    LocalPairs(frame.attributes)
  }

  /** Surroundings that make an acceptable root and keep out of the way of the images. */
  ghost predicate WritableFrame(frame: Frame)
  {
    PlainPairs(RootPairs(frame)) && Lookup(RootPairs(frame), "version") == Some("1.0") && AllSurrounding(frame.trailer)
  }

  const SCHEMA_NAMESPACE := "http://www.w3.org/2001/" + "XMLSchema-instance"

  const SCHEMA_LOCATION := XISF_NAMESPACE + (" http://pixinsight.com" + "/xisf/xisf-1.0.xsd")

  /** The root attributes every header is written with. */
  const ROOT_ATTRIBUTES: seq<(string, string)> := [
    ("version", "1.0"), ("xmlns", XISF_NAMESPACE), ("xmlns:xsi", SCHEMA_NAMESPACE),
    ("xsi:schemaLocation", SCHEMA_LOCATION)]

  /** With those, only what follows the images can keep a frame from being read back. */
  lemma {:induction false} StandardFrame(trailer: seq<Piece>)
    ensures WritableFrame(Frame(ROOT_ATTRIBUTES, trailer)) <==> AllSurrounding(trailer)
  {
    FourPairs(ROOT_ATTRIBUTES);
    StandardKeys();
    PlainKeys();
    var pairs := RootPairs(Frame(ROOT_ATTRIBUTES, trailer));
    assert forall i :: 0 <= i < |pairs| ==> PlainKey(pairs[i].0);
  }

  lemma {:induction false} StandardKeys()
    ensures LocalName("version") == "version" && LocalName("xmlns") == "xmlns"
    ensures LocalName("xmlns:xsi") == "xsi" && LocalName("xsi:schemaLocation") == "schemaLocation"
  {
    hide LocalName;
    ShortName("version");
    ShortName("xmlns");
    LocalNameAt("xmlns:xsi", "xmlns", "xsi");
    LocalNameAt("xsi:schemaLocation", "xsi", "schemaLocation");
  }

  lemma {:induction false} ShortName(name: string)
    ensures ':' !in name ==> LocalName(name) == name
  {
  }

  lemma {:induction false} PlainKeys()
    ensures PlainKey("version") && PlainKey("xmlns") && PlainKey("xsi") && PlainKey("schemaLocation")
  {
  }

  lemma {:induction false} FourPairs(p: seq<(string, string)>)
    requires |p| == 4
    ensures LocalPairs(p) == [(LocalName(p[0].0), p[0].1), (LocalName(p[1].0), p[1].1),
                              (LocalName(p[2].0), p[2].1), (LocalName(p[3].0), p[3].1)]
  {
    FirstPair(p);
    FirstPair(p[1..]);
    FirstPair(p[2..]);
    FirstPair(p[3..]);
    assert p[1..][1..] == p[2..] && p[2..][1..] == p[3..] && p[3..][1..] == [];
  }

  lemma {:induction false} FirstPair(pairs: seq<(string, string)>)
    requires pairs != []
    ensures LocalPairs(pairs) == [(LocalName(pairs[0].0), pairs[0].1)] + LocalPairs(pairs[1..])
  {
    RawIsWellFormed(pairs);
    RawIsWellFormed(pairs[1..]);
    assert RawAttributes(pairs)[1..] == RawAttributes(pairs[1..]);
  }

  lemma {:induction false} LocalNameAt(text: string, prefix: string, name: string)
    requires ':' !in name && text == prefix + ":" + name
    ensures LocalName(text) == name
  {
    Text.AfterLastUnique(prefix, ':', name);
    assert text[|prefix| + 1..] == name;
    assert text[|prefix|] == ':';
  }

  ghost predicate WritableImages(images: seq<PendingImage>, stored: StoredBlocks, addressing: Addressing)
  {
    AllInRange(images, stored) && Locatable(addressing, stored.blocks) && AllDescribable(stored.blocks)
    && forall i :: 0 <= i < |images| ==> WritableImage(images[i])
  }

  ghost function ImageElements(images: seq<PendingImage>, stored: StoredBlocks,
      addressing: Addressing): (es: seq<Element>)
    requires WritableImages(images, stored, addressing)
    ensures |es| == |images|
  {
    seq(|images|, i requires 0 <= i < |images| => ImageElement(images[i], stored.owners[i], addressing, stored.blocks))
  }

  lemma {:induction false} ImageElementNamed(image: PendingImage, owned: ImageBlocks, addressing: Addressing,
      blocks: seq<StoredBlock>)
    requires InRange(image, owned, blocks) && Locatable(addressing, blocks) && WritableImage(image)
    ensures ImageElement(image, owned, addressing, blocks).Is("Image")
    ensures !ImageElement(image, owned, addressing, blocks).Is("Data")
  {
  }

  lemma {:induction false} ImagesRead(images: seq<PendingImage>, stored: StoredBlocks, addressing: Addressing)
    requires WritableImages(images, stored, addressing)
    ensures ReadAs(ImagePieces(images, stored, addressing), ImageElements(images, stored, addressing))
    ensures Named(ImageElements(images, stored, addressing), "Image") == ImageElements(images, stored, addressing)
  {
    hide Unidentified;
    hide ImageElement;
    hide Built;
    hide Meaningful;
    hide Named;
    var pieces, es := ImagePieces(images, stored, addressing), ImageElements(images, stored, addressing);
    forall i | 0 <= i < |images|
      ensures IsElement(pieces[i]) && Meaningful(pieces[i]) && Built(pieces[i]) == es[i]
      ensures es[i].Is("Image") && Unidentified(es[i])
    {
      ImageReads(images[i], stored.owners[i], addressing, stored.blocks);
      ImageElementNamed(images[i], stored.owners[i], addressing, stored.blocks);
      ImageUnidentified(images[i], stored.owners[i], addressing, stored.blocks);
    }
    NamedAll(es, "Image");
  }

  ghost function RootElement(frame: Frame, images: seq<PendingImage>, stored: StoredBlocks,
      addressing: Addressing): Element
    requires WritableFrame(frame) && WritableImages(images, stored, addressing)
  {
    Element("xisf", Some(XISF_NAMESPACE), RootPairs(frame), NO_DATA,
            ImageElements(images, stored, addressing) + BuiltAll(frame.trailer))
  }

  lemma {:induction false} RootTagReads(frame: Frame)
    requires WritableFrame(frame)
    ensures TagElement(CoreTag("xisf", frame.attributes)) == Ok(CoreElement("xisf", RootPairs(frame), NO_DATA))
  {
    PlainPairsSayNothing(Own(NO_DATA, None), RootPairs(frame));
    RawIsWellFormed(frame.attributes);
    TagElementOf(CoreTag("xisf", frame.attributes), Some(XISF_NAMESPACE), NO_DATA);
  }

  lemma {:induction false} RootReads(frame: Frame, images: seq<PendingImage>, stored: StoredBlocks,
      addressing: Addressing)
    requires WritableFrame(frame) && WritableImages(images, stored, addressing)
    ensures Meaningful(HeaderPiece(frame, images, stored, addressing))
    ensures Built(HeaderPiece(frame, images, stored, addressing)) == RootElement(frame, images, stored, addressing)
  {
    var pieces := ImagePieces(images, stored, addressing);
    RootTagReads(frame);
    ImagesRead(images, stored, addressing);
    BuiltAllConcat(pieces, frame.trailer);
    OrdinaryFills(CoreElement("xisf", RootPairs(frame), NO_DATA), pieces + frame.trailer);
    assert [] + BuiltAll(pieces + frame.trailer) == BuiltAll(pieces + frame.trailer);
  }

  lemma {:induction false} RootAccepted(frame: Frame, images: seq<PendingImage>, stored: StoredBlocks,
      addressing: Addressing)
    requires WritableFrame(frame) && WritableImages(images, stored, addressing)
    ensures CheckRoot(RootElement(frame, images, stored, addressing))
         == Ok(Header("1.0", RootElement(frame, images, stored, addressing)))
  {
    hide ImageElements;
    hide ImagePieces;
    hide Unidentified;
    var root := RootElement(frame, images, stored, addressing);
    ImagesRead(images, stored, addressing);
    forall i | 0 <= i < |root.children|
      ensures Unidentified(root.children[i])
    {
      if i >= |images| {
        assert Surrounding(frame.trailer[i - |images|]);
      }
    }
    UnidentifiedAll(root.children);
    NoPlainUid(RootPairs(frame));
    assert Preorder(root) == [root] + PreorderAll(root.children);
    assert forall x <- Preorder(root) :: UidOf(x) == None;
  }

  /** A document within the parser's limits on elements, attributes and nesting. */
  predicate WithinLimits(piece: Piece)
  {
    Elements(piece) <= MAX_ELEMENTS && Attributes(piece) <= MAX_ATTRIBUTES && OpenDepth(piece) <= MAX_DEPTH
  }

  /**
    Parsing a written header gives, for every image in order, an element with the very block
    references the writer meant, and for each its own profile and thumbnail and no other's. The parser
    takes exactly the headers within its limits, and the writer has none.
   */
  lemma {:induction false} WrittenHeaderReads(frame: Frame, images: seq<PendingImage>, stored: StoredBlocks,
      addressing: Addressing)
    requires WritableFrame(frame) && WritableImages(images, stored, addressing)
    ensures var piece := HeaderPiece(frame, images, stored, addressing); var parsed := Parse(EventsIn([Note, piece]));
      (parsed.Ok? <==> WithinLimits(piece))
      && (parsed.Ok? ==> parsed == Ok(Header("1.0", RootElement(frame, images, stored, addressing))))
    ensures Named(RootElement(frame, images, stored, addressing).children, "Image")
            == ImageElements(images, stored, addressing)
  {
    var piece := HeaderPiece(frame, images, stored, addressing);
    var items := [Note, piece];
    RootReads(frame, images, stored, addressing);
    RootAccepted(frame, images, stored, addressing);
    ImagesRead(images, stored, addressing);
    NoImageSurrounds(frame.trailer);
    NamedConcat(ImageElements(images, stored, addressing), BuiltAll(frame.trailer), "Image");
    AfterDeclaration(piece);
    DocumentParsesExactly(items);
  }

  lemma {:induction false} AfterDeclaration(piece: Piece)
    requires IsElement(piece) && Meaningful(piece)
    ensures FitsIn(INITIAL, [Note, piece]) <==> WithinLimits(piece)
    ensures RootOf([Note, piece]) == Some(piece)
  {
    var items, rest := [Note, piece], [piece];
    assert items[1..] == rest && rest[1..] == [];
    assert ElementsIn(rest) == Elements(piece) + ElementsIn([]);
    assert AttributesIn(rest) == Attributes(piece) + AttributesIn([]);
    assert OpenDepthIn(rest) == Max(OpenDepth(piece), OpenDepthIn([]));
    assert MeaningfulIn(rest) <==> Meaningful(piece) && MeaningfulIn([]);
    assert MeaningfulIn(items) <==> Meaningful(items[0]) && MeaningfulIn(items[1..]);
    assert ElementsIn(items) == Elements(Note) + ElementsIn(rest);
    assert AttributesIn(items) == Attributes(Note) + AttributesIn(rest);
    assert OpenDepthIn(items) == Max(OpenDepth(Note), OpenDepthIn(rest));
  }
}
