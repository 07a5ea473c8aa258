/** A written header as its lexer gives it back: the same header, with every attribute normalized. */
module LexedHeader {
  import opened Primitives
  import opened Text
  import opened XmlText
  import opened Locations
  import opened BlockAttributes
  import opened GeometryAttribute
  import opened BlockCodec
  import Colour
  import opened HeaderTree
  import opened HeaderDocument
  import opened HeaderTrees
  import HeaderText
  import opened HeaderLexing
  import opened MonolithicWriter
  import opened WrittenElements
  import opened CorePieces
  import opened ReadImageText
  import opened ImageText
  import opened WrittenHeader

  // -------------------------------------------------- texts that normalization leaves alone

  lemma {:induction false} HexUnfolded(bytes: seq<byte>)
    ensures !HasFoldedChar(HexText(bytes))
  {
    if bytes != [] {
      HexUnfolded(bytes[1..]);
    }
  }

  lemma {:induction false} NamesUnfolded(codec: Codec, algorithm: ChecksumAlgorithm)
    ensures !codec.Other? ==> !HasFoldedChar(CodecName(codec))
    ensures !HasFoldedChar(AlgorithmName(algorithm))
  {
  }

  lemma {:induction false} CompressionUnfolded(c: Compression)
    requires !c.codec.Other?
    ensures !HasFoldedChar(CompressionText(c))
  {
    NamesUnfolded(c.codec, Sha1);
    DigitsUnfolded(c.uncompressedSize, 10);
    if c.shuffleItemSize.Some? {
      DigitsUnfolded(c.shuffleItemSize.value, 10);
    }
  }

  lemma {:induction false} ChecksumUnfolded(c: Checksum)
    ensures !HasFoldedChar(ChecksumText(c))
  {
    NamesUnfolded(Zlib, c.algorithm);
    HexUnfolded(c.digest);
  }

  lemma {:induction false} AttachmentUnfolded(position: nat, size: nat)
    ensures !HasFoldedChar(AttachmentText(position, size))
  {
    DigitsUnfolded(position, 10);
    DigitsUnfolded(size, 10);
  }

  lemma {:induction false} GeometryUnfolded(dimensions: seq<u64>, channels: u64)
    ensures !HasFoldedChar(GeometryText(dimensions, channels))
  {
    FieldsUnfolded(dimensions + [channels]);
  }

  lemma {:induction false} FieldsUnfolded(values: seq<u64>)
    requires values != []
    ensures !HasFoldedChar(Join(DecimalFields(values), ':'))
  {
    var fields := DecimalFields(values);
    DigitsUnfolded(values[0], 10);
    if |values| > 1 {
      FieldsUnfolded(values[1..]);
      assert fields[1..] == DecimalFields(values[1..]);
      assert !HasFoldedChar(fields[0] + [':']);
    }
  }

  /** Only the file name of an external locator can be changed by normalization. */
  lemma {:induction false} ExternalFolds(name: string, id: nat)
    ensures Folded(ExternalText(name, id)) == ExternalText(Folded(name), id)
  {
    var head, tail := "path(" + HEADER_DIR_TOKEN + "/", ")" + (":0x" + Digits(id, 16));
    DigitsUnfolded(id, 16);
    assert !HasFoldedChar(head) && !HasFoldedChar(tail);
    ExternalShape(name, id);
    ExternalShape(Folded(name), id);
    FoldedPlain(head, name + tail);
    FoldedBeforePlain(name, tail);
  }

  lemma {:induction false} UnescapedCharacters(text: string)
    requires UnchangedText(text)
    ensures Escaped(text, true) == text
  {
    forall i | 0 <= i < |text|
      ensures EscapedChar(text[i], true) == [text[i]]
    {
      assert text[i] in text;
    }
    HeaderText.EscapingKeeps(text);
  }

  lemma {:induction false} DigitsUnchanged(n: nat, base: nat)
    requires 2 <= base <= 16
    ensures UnchangedText(Digits(n, base))
  {
    DigitRunsAreTight(n, base);
    assert forall c :: DigitValue(c).Some? ==> c != '&' && c != '<' && c != '>' && c != '"' && c != '\'' && c > '\r';
  }

  /** Escaping the whole locator is escaping its file name, which is all the writer escapes. */
  lemma {:induction false} OnlyNameEscapes(name: string, id: nat)
    ensures Escaped(ExternalText(name, id), true) == DistributedLocator(name, id)
  {
    hide Escaped;
    hide UnchangedText;
    var head, tail := "path(" + HEADER_DIR_TOKEN + "/", ")" + (":0x" + Digits(id, 16));
    LocatorPartsUnchanged(id);
    UnescapedCharacters(head);
    UnescapedCharacters(tail);
    ExternalShape(name, id);
    ExternalShape(Escaped(name, true), id);
    EscapedConcat(head, name + tail, true);
    EscapedConcat(name, tail, true);
  }

  lemma {:induction false} LocatorPartsUnchanged(id: nat)
    ensures UnchangedText("path(" + HEADER_DIR_TOKEN + "/") && UnchangedText(")" + (":0x" + Digits(id, 16)))
  {
    DigitsUnchanged(id, 16);
  }

  lemma {:induction false} BlockPairsAsRead(b: StoredBlock)
    requires Describable(b)
    ensures FoldedPairs(BlockPairs(b)) == BlockPairs(b)
  {
    hide HasFoldedChar;
    if b.compression.Some? {
      CompressionUnfolded(b.compression.value);
      FoldedFixed(CompressionText(b.compression.value));
    }
    if b.checksum.Some? {
      ChecksumUnfolded(b.checksum.value);
      FoldedFixed(ChecksumText(b.checksum.value));
    }
  }

  function AddressingAsRead(addressing: Addressing): Addressing
  {
    match addressing
    case Attached(_) => addressing
    case Distributed(name) => Distributed(Folded(name))
  }

  lemma {:induction false} LocatorAsRead(addressing: Addressing, blocks: seq<StoredBlock>, i: nat)
    requires i < |blocks|
    ensures Folded(Locator(addressing, blocks, i)) == Locator(AddressingAsRead(addressing), blocks, i)
  {
    match addressing {
      case Attached(dataAt) =>
        AttachmentUnfolded(dataAt + Offset(blocks, i), |blocks[i].bytes|);
        FoldedFixed(Locator(addressing, blocks, i));
      case Distributed(name) => ExternalFolds(name, BlockId(i));
    }
  }

  lemma {:induction false} ElementPairsAsRead(own: seq<(string, string)>, addressing: Addressing,
      blocks: seq<StoredBlock>, i: nat)
    requires i < |blocks| && Describable(blocks[i])
    ensures FoldedPairs(ElementPairs(own, addressing, blocks, i))
         == ElementPairs(FoldedPairs(own), AddressingAsRead(addressing), blocks, i)
  {
    hide FoldedPairs;
    hide BlockPairs;
    hide Locator;
    PairsFoldApart(own + BlockPairs(blocks[i]), [("location", Locator(addressing, blocks, i))]);
    PairsFoldApart(own, BlockPairs(blocks[i]));
    BlockPairsAsRead(blocks[i]);
    OneFolded("location", Locator(addressing, blocks, i));
    LocatorAsRead(addressing, blocks, i);
  }

  lemma {:induction false} OwnAttributesAsRead(shape: Shape, attributes: seq<(string, string)>)
    ensures FoldedPairs(OwnAttributes(shape, attributes)) == OwnAttributes(shape, FoldedPairs(attributes))
  {
    hide FoldedPairs;
    var text := GeometryText(shape.dimensions, shape.channels);
    PairsFoldApart([("geometry", text)], attributes);
    OneFolded("geometry", text);
    GeometryUnfolded(shape.dimensions, shape.channels);
    FoldedFixed(text);
  }

  function SpaceAsRead(space: Option<WorkingSpace>): Option<WorkingSpace>
  {
    match space
    case None => None
    case Some(s) => Some(s.(attributes := (luminance: Colour.Vector) => FoldedPairs(s.attributes(luminance))))
  }

  function ThumbnailAsRead(thumbnail: Option<PendingThumbnail>): Option<PendingThumbnail>
  {
    match thumbnail
    case None => None
    case Some(t) => Some(t.(image := DeclaredAsRead(t.image)))
  }

  /** An image with its header text as it comes back; its shape and its data are untouched. */
  function ImageAsRead(image: PendingImage): PendingImage
  {
    image.(image := DeclaredAsRead(image.image), keywords := KeywordsAsRead(image.keywords),
           content := AllAsRead(image.content), space := SpaceAsRead(image.space), display := AllAsRead(image.display),
           thumbnail := ThumbnailAsRead(image.thumbnail), tables := TablesAsRead(image.tables))
  }

  lemma {:induction false} ImageOwnAsRead(image: PendingImage)
    ensures FoldedPairs(ImageOwn(image)) == ImageOwn(ImageAsRead(image))
  {
    hide FoldedPairs;
    hide DeclaredAttributes;
    OwnAttributesAsRead(ShapeOf(image.image), DeclaredAttributes(image.image));
    DeclaredAttributesAsRead(image.image);
  }

  function ImagesAsRead(images: seq<PendingImage>): (read: seq<PendingImage>)
    ensures |read| == |images|
  {
    seq(|images|, i requires 0 <= i < |images| => ImageAsRead(images[i]))
  }

  function FrameAsRead(frame: Frame): Frame
  {
    Frame(FoldedPairs(frame.attributes), AllAsRead(frame.trailer))
  }

  lemma {:induction false} MaybeLeafAsRead(present: bool, name: string, own: seq<(string, string)>,
      addressing: Addressing, blocks: seq<StoredBlock>, i: nat)
    requires AllDescribable(blocks) && (present ==> i < |blocks|)
    ensures AllAsRead(MaybeLeaf(present, name, own, addressing, blocks, i))
         == MaybeLeaf(present, name, FoldedPairs(own), AddressingAsRead(addressing), blocks, i)
  {
    hide FoldedPairs;
    hide ElementPairs;
    if present {
      LeafAsRead(name, ElementPairs(own, addressing, blocks, i));
      ElementPairsAsRead(own, addressing, blocks, i);
    }
  }

  lemma {:induction false} SpacePiecesAsRead(space: Option<WorkingSpace>)
    ensures AllAsRead(SpacePieces(space)) == SpacePieces(SpaceAsRead(space))
  {
    hide Colour.Derived;
    if space.Some? && Colour.Derived(space.value.x, space.value.y).Some? {
      LeafAsRead("RGBWorkingSpace", space.value.attributes(Colour.Derived(space.value.x, space.value.y).value));
    }
  }

  lemma {:induction false} AncillaryAsRead(image: PendingImage)
    ensures AllAsRead(Ancillary(image)) == Ancillary(ImageAsRead(image))
  {
    hide AllAsRead;
    hide SpacePieces;
    hide KeywordPieces;
    var keywords := KeywordPieces(image.keywords);
    AllAsReadApart(keywords + image.content + SpacePieces(image.space), image.display);
    AllAsReadApart(keywords + image.content, SpacePieces(image.space));
    AllAsReadApart(keywords, image.content);
    KeywordPiecesAsRead(image.keywords);
    SpacePiecesAsRead(image.space);
  }

  lemma {:induction false} ThumbnailAttributesAsRead(image: PendingImage)
    ensures FoldedPairs(ThumbnailAttributes(image)) == ThumbnailAttributes(ImageAsRead(image))
  {
    if image.thumbnail.Some? {
      hide FoldedPairs;
      hide PreviewAttributes;
      var preview := image.thumbnail.value.image;
      OwnAttributesAsRead(ShapeOf(preview), PreviewAttributes(preview));
      PreviewAttributesAsRead(preview);
    }
  }

  lemma {:induction false} ExtrasAsRead(image: PendingImage, owned: ImageBlocks, addressing: Addressing,
      blocks: seq<StoredBlock>)
    requires InRange(image, owned, blocks) && AllDescribable(blocks)
    ensures AllAsRead(ExtraPieces(image, owned, addressing, blocks))
         == ExtraPieces(ImageAsRead(image), owned, AddressingAsRead(addressing), blocks)
  {
    hide AllAsRead;
    hide MaybeLeaf;
    var profile := MaybeLeaf(owned.icc.Some?, "ICCProfile", [], addressing, blocks, owned.icc.GetOr(0));
    var preview := MaybeLeaf(owned.thumbnail.Some?, "Thumbnail", ThumbnailAttributes(image), addressing, blocks,
                             owned.thumbnail.GetOr(0));
    AllAsReadApart(profile, preview);
    MaybeLeafAsRead(owned.icc.Some?, "ICCProfile", [], addressing, blocks, owned.icc.GetOr(0));
    MaybeLeafAsRead(owned.thumbnail.Some?, "Thumbnail", ThumbnailAttributes(image), addressing, blocks,
                    owned.thumbnail.GetOr(0));
    ThumbnailAttributesAsRead(image);
    assert FoldedPairs([]) == [];
  }

  lemma {:induction false} ImagePieceAsRead(image: PendingImage, owned: ImageBlocks, addressing: Addressing,
      blocks: seq<StoredBlock>)
    requires InRange(image, owned, blocks) && AllDescribable(blocks)
    ensures AsRead(ImagePiece(image, owned, addressing, blocks))
         == ImagePiece(ImageAsRead(image), owned, AddressingAsRead(addressing), blocks)
  {
    hide AllAsRead;
    hide Ancillary;
    hide ExtraPieces;
    hide ElementPairs;
    hide ImageOwn;
    hide FoldedPairs;
    hide TablePieces;
    var own, extras := ImageOwn(image), ExtraPieces(image, owned, addressing, blocks);
    CoreTagAsRead("Image", ElementPairs(own, addressing, blocks, owned.data));
    ElementPairsAsRead(own, addressing, blocks, owned.data);
    ImageOwnAsRead(image);
    AllAsReadApart(Ancillary(image) + extras, TablePieces(image.tables));
    TablePiecesAsRead(image.tables);
    AllAsReadApart(Ancillary(image), extras);
    AncillaryAsRead(image);
    ExtrasAsRead(image, owned, addressing, blocks);
  }

  lemma {:induction false} InRangeAsRead(images: seq<PendingImage>, stored: StoredBlocks)
    requires AllInRange(images, stored)
    ensures AllInRange(ImagesAsRead(images), stored)
  {
  }

  /** Reading a written header back gives the header of the same blocks with its texts as they come back. */
  lemma {:induction false} HeaderAsRead(frame: Frame, images: seq<PendingImage>, stored: StoredBlocks,
      addressing: Addressing)
    requires AllInRange(images, stored) && AllDescribable(stored.blocks)
    ensures AllInRange(ImagesAsRead(images), stored)
    ensures AsRead(HeaderPiece(frame, images, stored, addressing))
         == HeaderPiece(FrameAsRead(frame), ImagesAsRead(images), stored, AddressingAsRead(addressing))
  {
    hide ImagePiece;
    hide ImageAsRead;
    hide FoldedPairs;
    hide AllDescribable;
    InRangeAsRead(images, stored);
    var pieces := ImagePieces(images, stored, addressing);
    var read := ImagePieces(ImagesAsRead(images), stored, AddressingAsRead(addressing));
    forall i | 0 <= i < |images|
      ensures AsRead(pieces[i]) == read[i]
    {
      ImagePieceAsRead(images[i], stored.owners[i], addressing, stored.blocks);
    }
    assert AllAsRead(pieces) == read;
    AllAsReadApart(pieces, frame.trailer);
    CoreTagAsRead("xisf", frame.attributes);
  }

  /** Attributes that may stand beside a geometry and the attributes of a block. */
  predicate LexableBesideGeometry(pairs: seq<(string, string)>)
  {
    LexablePairs(pairs) && LacksKey(pairs, "geometry")
  }

  lemma {:induction false} BlockKeysAreNames()
    ensures IsSimpleName("geometry") && IsSimpleName("compression")
    ensures IsSimpleName("checksum") && IsSimpleName("location")
  {
  }

  lemma {:induction false} PlainLacksBlockKeys(own: seq<(string, string)>)
    requires PlainPairs(own)
    ensures LacksKey(own, "compression") && LacksKey(own, "checksum") && LacksKey(own, "location")
  {
  }

  lemma {:induction false} LexableElementPairs(own: seq<(string, string)>, addressing: Addressing,
      blocks: seq<StoredBlock>, i: nat)
    requires LexablePairs(own) && PlainPairs(own) && i < |blocks|
    ensures LexablePairs(ElementPairs(own, addressing, blocks, i))
  {
    hide LexablePairs;
    hide LacksKey;
    hide IsSimpleName;
    hide Locator;
    var b, pairs := blocks[i], own;
    BlockKeysAreNames();
    PlainLacksBlockKeys(own);
    if b.compression.Some? {
      OneMorePair(pairs, "compression", CompressionText(b.compression.value));
      pairs := pairs + [("compression", CompressionText(b.compression.value))];
    }
    if b.checksum.Some? {
      OneMorePair(pairs, "checksum", ChecksumText(b.checksum.value));
      pairs := pairs + [("checksum", ChecksumText(b.checksum.value))];
    }
    OneMorePair(pairs, "location", Locator(addressing, blocks, i));
    assert ElementPairs(own, addressing, blocks, i) == pairs + [("location", Locator(addressing, blocks, i))];
  }

  lemma {:induction false} LexableOwnAttributes(shape: Shape, attributes: seq<(string, string)>)
    requires LexableBesideGeometry(attributes)
    ensures LexablePairs(OwnAttributes(shape, attributes))
  {
    hide IsSimpleName;
    BlockKeysAreNames();
    var pairs := OwnAttributes(shape, attributes);
    assert forall i :: 0 < i < |pairs| ==> pairs[i] == attributes[i - 1];
  }

  lemma {:induction false} ImageOwnLexable(image: PendingImage)
    ensures LexablePairs(ImageOwn(image))
  {
    hide DeclaredAttributes;
    hide LexablePairs;
    DeclaredUnremarkable(image.image);
    LexableOwnAttributes(ShapeOf(image.image), DeclaredAttributes(image.image));
  }

  lemma {:induction false} PreviewOwnLexable(preview: PendingThumbnail)
    ensures LexablePairs(PreviewOwn(preview))
  {
    hide PreviewAttributes;
    hide LexablePairs;
    PreviewUnremarkable(preview.image);
    LexableOwnAttributes(ShapeOf(preview.image), PreviewAttributes(preview.image));
  }

  /** An image whose texts can be lexed inside a header with these namespaces. */
  ghost predicate LexableImage(image: PendingImage, scope: Scope)
  {
    LexableElements(image.content, scope) && LexableElements(image.display, scope) && AllLexableTables(image.tables)
    && (image.space.Some? && !Degenerate(image) ==>
          LexablePairs(image.space.value.attributes(Colour.Derived(image.space.value.x, image.space.value.y).value)))
  }

  lemma {:induction false} MaybeLeafLexable(present: bool, name: string, own: seq<(string, string)>,
      addressing: Addressing, blocks: seq<StoredBlock>, i: nat, scope: Scope)
    requires CoreByDefault(scope) && IsSimpleName(name)
    requires present ==> LexablePairs(own) && PlainPairs(own) && i < |blocks|
    ensures LexableElements(MaybeLeaf(present, name, own, addressing, blocks, i), scope)
  {
    if present {
      LexableElementPairs(own, addressing, blocks, i);
      LexableLeaf(name, ElementPairs(own, addressing, blocks, i), scope);
    }
  }

  lemma {:induction false} ElementNamesAreNames()
    ensures IsSimpleName("Image") && IsSimpleName("ICCProfile")
    ensures IsSimpleName("Thumbnail") && IsSimpleName("RGBWorkingSpace")
  {
  }

  lemma {:induction false} ExtrasLexable(image: PendingImage, owned: ImageBlocks, addressing: Addressing,
      blocks: seq<StoredBlock>, scope: Scope)
    requires InRange(image, owned, blocks) && LexableImage(image, scope) && CoreByDefault(scope)
    ensures LexableElements(ExtraPieces(image, owned, addressing, blocks), scope)
  {
    hide MaybeLeaf;
    hide LexableElements;
    hide LexablePairs;
    hide IsSimpleName;
    ElementNamesAreNames();
    assert LexablePairs([]) by {
      NoPairsLexable();
    }
    if owned.thumbnail.Some? {
      PreviewOwnLexable(image.thumbnail.value);
      PreviewOwnPlain(image.thumbnail.value);
    }
    MaybeLeafLexable(owned.icc.Some?, "ICCProfile", [], addressing, blocks, owned.icc.GetOr(0), scope);
    MaybeLeafLexable(owned.thumbnail.Some?, "Thumbnail", ThumbnailAttributes(image), addressing, blocks,
                     owned.thumbnail.GetOr(0), scope);
    LexableApart(MaybeLeaf(owned.icc.Some?, "ICCProfile", [], addressing, blocks, owned.icc.GetOr(0)),
                 MaybeLeaf(owned.thumbnail.Some?, "Thumbnail", ThumbnailAttributes(image), addressing, blocks,
                           owned.thumbnail.GetOr(0)), scope);
  }

  lemma {:induction false} AncillaryLexable(image: PendingImage, scope: Scope)
    requires LexableImage(image, scope) && CoreByDefault(scope)
    ensures LexableElements(Ancillary(image), scope)
  {
    hide LexablePairs;
    hide IsSimpleName;
    hide Colour.Derived;
    ElementNamesAreNames();
    if image.space.Some? && !Degenerate(image) {
      var space := image.space.value;
      LexableLeaf("RGBWorkingSpace", space.attributes(Colour.Derived(space.x, space.y).value), scope);
    }
    hide KeywordPieces;
    var keywords := KeywordPieces(image.keywords);
    KeywordsAside(image.keywords);
    AsideLexable(keywords, scope);
    LexableApart(keywords, image.content, scope);
    LexableApart(keywords + image.content, SpacePieces(image.space), scope);
    LexableApart(keywords + image.content + SpacePieces(image.space), image.display, scope);
  }

  lemma {:induction false} ImagePieceLexable(image: PendingImage, owned: ImageBlocks, addressing: Addressing,
      blocks: seq<StoredBlock>, scope: Scope)
    requires InRange(image, owned, blocks) && LexableImage(image, scope) && CoreByDefault(scope)
    ensures LexableElements([ImagePiece(image, owned, addressing, blocks)], scope)
  {
    hide LexableElements;
    hide LexablePairs;
    hide IsSimpleName;
    hide ElementPairs;
    hide ImageOwn;
    hide Ancillary;
    hide ExtraPieces;
    hide TablePieces;
    var own := ImageOwn(image);
    ElementNamesAreNames();
    ImageOwnPlain(image);
    ImageOwnLexable(image);
    TablesAside(image.tables);
    AsideLexable(TablePieces(image.tables), scope);
    LexableElementPairs(own, addressing, blocks, owned.data);
    AncillaryLexable(image, scope);
    ExtrasLexable(image, owned, addressing, blocks, scope);
    LexableApart(Ancillary(image), ExtraPieces(image, owned, addressing, blocks), scope);
    LexableApart(Ancillary(image) + ExtraPieces(image, owned, addressing, blocks), TablePieces(image.tables), scope);
    LexableNode("Image", ElementPairs(own, addressing, blocks, owned.data),
                Ancillary(image) + ExtraPieces(image, owned, addressing, blocks) + TablePieces(image.tables), scope);
  }

  /** The namespaces the root of a header declares. */
  function RootScope(frame: Frame): Scope { Declared(map[], RawAttributes(frame.attributes)) }

  /** Surroundings that can be lexed, in which names without a prefix belong to the format. */
  ghost predicate LexableFrame(frame: Frame)
  {
    PrintableAttributes(RawAttributes(frame.attributes)) && CoreByDefault(RootScope(frame))
    && LexableElements(frame.trailer, RootScope(frame))
  }

  /** Every header written from texts that can be lexed can be lexed. */
  lemma {:induction false} HeaderPrintable(frame: Frame, images: seq<PendingImage>, stored: StoredBlocks,
      addressing: Addressing)
    requires AllInRange(images, stored) && LexableFrame(frame)
    requires forall i :: 0 <= i < |images| ==> LexableImage(images[i], RootScope(frame))
    ensures Printable(HeaderPiece(frame, images, stored, addressing), map[])
  {
    hide LexableImage;
    hide ImagePiece;
    hide IsXmlName;
    hide Declared;
    hide PrintableAttributes;
    hide CoreByDefault;
    var scope, pieces := RootScope(frame), ImagePieces(images, stored, addressing);
    forall i | 0 <= i < |images|
      ensures IsElement(pieces[i]) && Printable(pieces[i], scope)
    {
      ImagePieceLexable(images[i], stored.owners[i], addressing, stored.blocks, scope);
      assert pieces[i] == [pieces[i]][0];
    }
    LexableApart(pieces, frame.trailer, scope);
    RootTagPrintable(frame);
  }

  lemma {:induction false} RootTagPrintable(frame: Frame)
    requires LexableFrame(frame)
    ensures PrintableTag(CoreTag("xisf", frame.attributes), map[])
  {
    hide PrintableAttributes;
    assert IsSimpleName("xisf");
    SimpleNameIsXml("xisf");
  }

  // -------------------------------------------------- the root every header is written with

  const STANDARD_SCOPE: Scope := map["" := XISF_NAMESPACE, "xsi" := SCHEMA_NAMESPACE]

  /** With the standard root attributes, only what follows the images can keep a frame from being lexed. */
  lemma {:induction false} StandardFrameLexes(trailer: seq<Piece>)
    ensures LexableFrame(Frame(ROOT_ATTRIBUTES, trailer)) <==> LexableElements(trailer, STANDARD_SCOPE)
    ensures FrameAsRead(Frame(ROOT_ATTRIBUTES, trailer)) == Frame(ROOT_ATTRIBUTES, AllAsRead(trailer))
  {
    hide LexableElements;
    hide PrintableAttributes;
    hide FoldedPairs;
    StandardScope();
    StandardAttributesPrint();
    StandardValuesKept();
  }

  lemma {:induction false} FourAttributes()
    ensures RawAttributes(ROOT_ATTRIBUTES) == [
      Attribute("version", "1.0"), Attribute("xmlns", XISF_NAMESPACE), Attribute("xmlns:xsi", SCHEMA_NAMESPACE),
      Attribute("xsi:schemaLocation", SCHEMA_LOCATION)]
  {
    hide RawAttributes;
    RawAt(ROOT_ATTRIBUTES, 0);
    RawAt(ROOT_ATTRIBUTES, 1);
    RawAt(ROOT_ATTRIBUTES, 2);
    RawAt(ROOT_ATTRIBUTES, 3);
  }

  lemma {:induction false} StandardPrefixes()
    ensures DeclaredPrefix("version") == None && DeclaredPrefix("xmlns") == Some("")
    ensures DeclaredPrefix("xmlns:xsi") == Some("xsi") && DeclaredPrefix("xsi:schemaLocation") == None
    ensures IsXmlName("version") && IsXmlName("xmlns") && IsXmlName("xmlns:xsi") && IsXmlName("xsi:schemaLocation")
  {
    hide SplitOnce;
    hide IsSimpleName;
    StandardNames();
    SimpleNameIsXml("version");
    SimpleNameIsXml("xmlns");
    assert "xmlns:xsi" == "xmlns" + [':'] + "xsi";
    SplitOnceAt("xmlns", ':', "xsi");
    assert "xmlns:xsi"[6..] == "xsi";
    assert "xsi:schemaLocation" == "xsi" + [':'] + "schemaLocation";
    SplitOnceAt("xsi", ':', "schemaLocation");
  }

  lemma {:induction false} StandardNames()
    ensures IsSimpleName("version") && IsSimpleName("xmlns") && IsSimpleName("xsi") && IsSimpleName("schemaLocation")
  {
  }

  lemma {:induction false} DeclaredFirst(scope: Scope, raw: seq<RawAttribute>)
    requires raw != [] && raw[0].Attribute?
    ensures Declared(scope, raw)
         == var rest := Declared(scope, raw[1..]);
            if DeclaredPrefix(raw[0].key).None? then rest else rest[DeclaredPrefix(raw[0].key).value := raw[0].value]
  {
  }

  lemma {:induction false} StandardScope()
    ensures Declared(map[], RawAttributes(ROOT_ATTRIBUTES)) == STANDARD_SCOPE
  {
    hide DeclaredPrefix;
    hide RawAttributes;
    hide Declared;
    StandardPrefixes();
    FourScope(ROOT_ATTRIBUTES, "", "xsi");
  }

  lemma {:induction false} FourScope(p: seq<(string, string)>, first: string, second: string)
    requires |p| == 4 && first != second
    requires DeclaredPrefix(p[0].0) == None && DeclaredPrefix(p[3].0) == None
    requires DeclaredPrefix(p[1].0) == Some(first) && DeclaredPrefix(p[2].0) == Some(second)
    ensures Declared(map[], RawAttributes(p)) == map[first := p[1].1, second := p[2].1]
  {
    hide DeclaredPrefix;
    hide RawAttributes;
    hide Declared;
    forall i | 0 <= i < 4
      ensures RawAttributes(p)[i] == Attribute(p[i].0, p[i].1)
    {
      RawAt(p, i);
    }
    MiddleTwoDeclare(RawAttributes(p), first, second);
  }

  lemma {:induction false} MiddleTwoDeclare(raw: seq<RawAttribute>, first: string, second: string)
    requires |raw| == 4 && (forall i :: 0 <= i < 4 ==> raw[i].Attribute?) && first != second
    requires DeclaredPrefix(raw[0].key) == None && DeclaredPrefix(raw[3].key) == None
    requires DeclaredPrefix(raw[1].key) == Some(first) && DeclaredPrefix(raw[2].key) == Some(second)
    ensures Declared(map[], raw) == map[first := raw[1].value, second := raw[2].value]
  {
    hide DeclaredPrefix;
    DeclaredFirst(map[], raw);
    DeclaredFirst(map[], raw[1..]);
    DeclaredFirst(map[], raw[2..]);
    DeclaredFirst(map[], raw[3..]);
    assert raw[1..][1..] == raw[2..] && raw[2..][1..] == raw[3..] && raw[3..][1..] == [];
  }

  lemma {:induction false} StandardAttributesPrint()
    ensures PrintableAttributes(RawAttributes(ROOT_ATTRIBUTES))
  {
    hide DeclaredPrefix;
    hide IsXmlName;
    hide RawAttributes;
    hide UnchangedText;
    FourAttributes();
    StandardPrefixes();
    StandardValuesUnchanged();
  }

  lemma {:induction false} StandardValuesKept()
    ensures FoldedPairs(ROOT_ATTRIBUTES) == ROOT_ATTRIBUTES
  {
    hide Folded;
    hide UnchangedText;
    StandardValuesUnchanged();
    UnchangedIsKept("1.0");
    UnchangedIsKept(XISF_NAMESPACE);
    UnchangedIsKept(SCHEMA_NAMESPACE);
    UnchangedIsKept(SCHEMA_LOCATION);
  }

  lemma {:induction false} UnchangedIsKept(text: string)
    requires UnchangedText(text)
    ensures Folded(text) == text
  {
    FoldedFixed(text);
  }

  lemma {:induction false} UnchangedApart(a: string, b: string)
    requires UnchangedText(a) && UnchangedText(b)
    ensures UnchangedText(a + b)
  {
  }

  lemma {:induction false} StandardValuesUnchanged()
    ensures UnchangedText("1.0") && UnchangedText(XISF_NAMESPACE)
    ensures UnchangedText(SCHEMA_NAMESPACE) && UnchangedText(SCHEMA_LOCATION)
  {
    hide UnchangedText;
    ShortPartsUnchanged();
    LocationPartsUnchanged();
    OwnNamespaceUnchanged();
    UnchangedApart("http://www.w3.org/2001/", "XMLSchema-instance");
    UnchangedApart(" http://pixinsight.com", "/xisf/xisf-1.0.xsd");
    UnchangedApart(XISF_NAMESPACE, " http://pixinsight.com" + "/xisf/xisf-1.0.xsd");
  }

  lemma {:induction false} OwnNamespaceUnchanged()
    ensures UnchangedText(XISF_NAMESPACE)
  {
  }

  lemma {:induction false} ShortPartsUnchanged()
    ensures UnchangedText("1.0") && UnchangedText("http://www.w3.org/2001/") && UnchangedText("XMLSchema-instance")
  {
  }

  lemma {:induction false} LocationPartsUnchanged()
    ensures UnchangedText(" http://pixinsight.com") && UnchangedText("/xisf/xisf-1.0.xsd")
  {
  }
}
