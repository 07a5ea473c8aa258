/** What each image of a written file yields, however its header addresses the blocks. */
module WrittenImages {
  import opened Primitives
  import opened Text
  import opened XmlText
  import opened GeometryAttribute
  import PlanarSamples
  import opened ImageChecks
  import opened BlockCodec
  import opened HeaderTree
  import HeaderParser
  import opened HeaderDocument
  import PropertyTypes
  import HeaderTrees
  import HeaderText
  import opened HeaderLexing
  import opened ImageText
  import opened MonolithicWriter
  import opened WrittenElements
  import opened CorePieces
  import opened ReadImageText
  import opened WrittenHeader
  import opened LexedHeader
  import opened ImageYields
  import opened BlockReader
  import opened MonolithicFile

  // -------------------------------------------------- every prepared block can be described

  lemma {:induction false} PrepareDescribable(engine: Engine, data: seq<byte>, options: BlockOptions)
    requires Lawful(engine) && |data| < U64_LIMIT && Prepare(engine, data, options).Ok?
    ensures Describable(Prepare(engine, data, options).value)
  {
    PreparedReadsBack(engine, data, options);
  }

  lemma {:induction false} ImageDescribable(engine: Engine, stored: StoredBlocks, image: PendingImage)
    requires Lawful(engine) && Fitting(image) && AllDescribable(stored.blocks)
    requires PrepareImage(engine, stored, image).Ok?
    ensures AllDescribable(PrepareImage(engine, stored, image).value.blocks)
  {
    PrepareDescribable(engine, image.data, image.options);
    if image.iccProfile.Some? {
      PrepareDescribable(engine, WithEmbeddedFlag(image.iccProfile.value).value, AS_GIVEN);
    }
    if image.thumbnail.Some? {
      PrepareDescribable(engine, image.thumbnail.value.data, image.thumbnail.value.options);
    }
  }

  lemma {:induction false} PreparedDescribable(engine: Engine, stored: StoredBlocks, images: seq<PendingImage>)
    requires Lawful(engine) && (forall i :: 0 <= i < |images| ==> Fitting(images[i]))
    requires AllDescribable(stored.blocks) && PrepareFrom(engine, stored, images).Ok?
    ensures AllDescribable(PrepareFrom(engine, stored, images).value.blocks)
    decreases |images|
  {
    if images != [] {
      ImageDescribable(engine, stored, images[0]);
      PreparedDescribable(engine, PrepareImage(engine, stored, images[0]).value, images[1..]);
    }
  }

  /** The writer asks of a shape only how many bytes it takes, and so accepts some that no reader does. */
  lemma {:induction false} UnreadableShapes()
    ensures DataSize(Shape([], 1, 1)) == Some(1) && Geometry(GeometryText([], 1)).Err?
    ensures DataSize(Shape([0, 5], 1, 1)) == Some(0) && Geometry(GeometryText([0, 5], 1)).Err?
  {
    hide Geometry;
    GeometryReadsBackExactly([], 1);
    GeometryReadsBackExactly([0, 5], 1);
    assert CheckedProduct([1], 1) == CheckedProduct([], 1) == Some(1);
    assert [0, 5] + [1] == [0, 5, 1];
    assert CheckedProduct([0, 5, 1], 1) == CheckedProduct([5, 1], 0) == CheckedProduct([1], 0) == CheckedProduct([], 0);
  }

  // -------------------------------------------------- all the images

  /** What a writer is given that can be read back, and the blocks it makes of it. */
  ghost predicate Writable(engine: Engine, frame: Frame, images: seq<PendingImage>, stored: StoredBlocks)
  {
    Lawful(engine) && PrepareAllowed(images) && PrepareAll(engine, images) == Ok(stored) && ReadableTexts(frame, images)
  }

  lemma {:induction false} AcceptedFit(images: seq<PendingImage>)
    requires AcceptedTogether(images)
    ensures PrepareAllowed(images)
  {
    forall i | 0 <= i < |images|
      ensures Fitting(images[i])
    {
      assert IsAccepted(images[i]);
    }
  }

  /** Texts that can be lexed, and whose elements keep out of the way of the images. */
  ghost predicate ReadableTexts(frame: Frame, images: seq<PendingImage>)
  {
    LexableFrame(frame) && WritableFrame(FrameAsRead(frame))
    && forall i :: 0 <= i < |images| ==>
       LexableImage(images[i], RootScope(frame)) && WritableImage(ImageAsRead(images[i]))
  }

  ghost predicate PrepareAllowed(images: seq<PendingImage>)
  {
    forall i :: 0 <= i < |images| ==> Fitting(images[i])
  }

  lemma {:induction false} WritableShape(engine: Engine, frame: Frame, images: seq<PendingImage>, stored: StoredBlocks)
    requires Writable(engine, frame, images, stored)
    ensures AllInRange(images, stored) && AllDescribable(stored.blocks)
    ensures forall i :: 0 <= i < |images| ==> Placed(engine, stored.blocks, images[i], stored.owners[i])
  {
    PreparedShape(engine, images);
    PreparedDescribable(engine, StoredBlocks([], []), images);
  }

  /**
    A header's events parse, and the i-th `Image` in its root yields the i-th image. After the images stands what
    was to follow them, and the root has its own attributes.
   */
  ghost predicate HeaderYields(r: Reader, events: seq<Event>, frame: Frame, images: seq<PendingImage>)
  {
    var parsed := HeaderParser.Parse(events);
    parsed.Ok? && parsed.value.root.attributes == RootPairs(FrameAsRead(frame)) && Ordinary(AllAsRead(frame.trailer))
    && var es := HeaderParser.Named(parsed.value.root.children, "Image");
       parsed.value.root.children == es + BuiltAll(AllAsRead(frame.trailer))
       && |es| == |images| && forall i :: 0 <= i < |images| ==> Yields(r, es[i], images[i])
  }

  /** The lexer gives a written header back as the header of the same images, its attributes normalized. */
  lemma {:induction false} HeaderLexed(lex: seq<byte> -> seq<Event>, engine: Engine, frame: Frame,
      images: seq<PendingImage>, stored: StoredBlocks, addressing: Addressing)
    requires Lexes(lex) && Writable(engine, frame, images, stored) && AllInRange(images, stored)
    ensures AllDescribable(stored.blocks) && AllInRange(ImagesAsRead(images), stored)
    ensures var piece := HeaderPiece(frame, images, stored, addressing);
      var read := HeaderPiece(FrameAsRead(frame), ImagesAsRead(images), stored, AddressingAsRead(addressing));
      lex(HeaderBytes(frame, images, stored, addressing)) == EventsIn([Note, read])
      && (WithinLimits(piece) <==> WithinLimits(read))
  {
    hide EventsIn;
    hide AsRead;
    hide HeaderText.Utf8;
    hide HeaderText.Print;
    hide Printable;
    hide LexableImage;
    hide WritableImage;
    hide ImageAsRead;
    WritableShape(engine, frame, images, stored);
    HeaderAsRead(frame, images, stored, addressing);
    HeaderPrintable(frame, images, stored, addressing);
    SizeAsRead(HeaderPiece(frame, images, stored, addressing));
  }

  /** A header within the parser's limits yields every image, in order; one past them is refused whole. */
  ghost predicate SurvivesWithin(r: Reader, events: seq<Event>, frame: Frame, images: seq<PendingImage>,
      piece: Piece)
  {
    if WithinLimits(piece) then HeaderYields(r, events, frame, images) else HeaderParser.Parse(events).Err?
  }

  /** One image's element, read from a header whose lexer has normalized it, yields the image as it was given. */
  lemma {:induction false} ImageYielded(r: Reader, image: PendingImage, owned: ImageBlocks, addressing: Addressing,
      blocks: seq<StoredBlock>)
    requires Lawful(r.env.engine) && Fetchable(r, addressing, blocks)
    requires Fitting(image) && WritableImage(ImageAsRead(image))
    requires InRange(ImageAsRead(image), owned, blocks) && Placed(r.env.engine, blocks, image, owned)
    ensures Yields(r, ImageElement(ImageAsRead(image), owned, addressing, blocks), image)
  {
    assert Locatable(addressing, blocks);
    hide Yields;
    hide Holds;
    hide ImageElement;
    hide Fetchable;
    hide Lawful;
    hide AllGiven;
    hide Built;
    hide Meaningful;
    SameDataAsRead(r.env.engine, image, owned, blocks);
    ImageSurvives(r, ImageAsRead(image), owned, addressing, blocks);
    HeldAsRead(r, ImageElement(ImageAsRead(image), owned, addressing, blocks), image);
  }

  /** Parsing a written header gives one element an image, in order, and each yields what that image was given. */
  lemma {:induction false} ImagesSurvive(r: Reader, lex: seq<byte> -> seq<Event>, frame: Frame,
      images: seq<PendingImage>, stored: StoredBlocks, addressing: Addressing)
    requires Lexes(lex) && Writable(r.env.engine, frame, images, stored) && AllInRange(images, stored)
    requires Locatable(AddressingAsRead(addressing), stored.blocks)
    requires WithinLimits(HeaderPiece(frame, images, stored, addressing)) ==>
      Fetchable(r, AddressingAsRead(addressing), stored.blocks)
    ensures SurvivesWithin(r, lex(HeaderBytes(frame, images, stored, addressing)), frame, images,
                           HeaderPiece(frame, images, stored, addressing))
  {
    hide Yields;
    hide Placed;
    hide ImageAsRead;
    hide ImageElement;
    hide LexableImage;
    hide LexableFrame;
    hide WritableImage;
    hide WithinLimits;
    hide HeaderPiece;
    hide HeaderBytes;
    hide Lawful;
    hide Lexes;
    hide Fetchable;
    WritableShape(r.env.engine, frame, images, stored);
    HeaderLexed(lex, r.env.engine, frame, images, stored, addressing);
    var read, at := ImagesAsRead(images), AddressingAsRead(addressing);
    WrittenHeaderReads(FrameAsRead(frame), read, stored, at);
    var es := ImageElements(read, stored, at);
    if WithinLimits(HeaderPiece(frame, images, stored, addressing)) {
      forall i | 0 <= i < |images|
        ensures Yields(r, es[i], images[i])
      {
        ImageYielded(r, images[i], stored.owners[i], at, stored.blocks);
      }
    }
  }

  // -------------------------------------------------- identifiers stay unique

  /** What survives, and no two of the images read share an identifier. */
  ghost predicate UniquelySurvives(r: Reader, events: seq<Event>, frame: Frame, images: seq<PendingImage>,
      piece: Piece)
  {
    SurvivesWithin(r, events, frame, images, piece)
    && (HeaderParser.Parse(events).Ok? ==>
        UniqueIds(HeaderParser.Named(HeaderParser.Parse(events).value.root.children, "Image")))
  }

  ghost predicate UniqueIds(es: seq<Element>)
  {
    forall i, j :: 0 <= i < j < |es| && es[i].Attr("id").Some? ==> es[i].Attr("id") != es[j].Attr("id")
  }

  lemma {:induction false} WordIsKept(text: string)
    requires IsWord(text)
    ensures !HasFoldedChar(text)
  {
    forall c | c in text
      ensures c != '\t' && c != '\r' && c != '\n'
    {
      if c != text[0] {
        assert c in text[1..];
      }
    }
  }

  lemma {:induction false} AcceptedIdKept(r: Reader, e: Element, image: PendingImage)
    requires IsAccepted(image) && Yields(r, e, image)
    ensures e.Attr("id") == image.image.id
  {
    hide Folded;
    hide IsWord;
    hide Block;
    hide YieldsThumbnail;
    hide YieldsContent;
    if image.image.id.Some? {
      WordIsKept(image.image.id.value);
      FoldedFixed(image.image.id.value);
    }
  }

  /** The images of an accepted file keep the identifiers they were accepted with, which no two share. */
  lemma {:induction false} IdsAreUnique(r: Reader, events: seq<Event>, frame: Frame, images: seq<PendingImage>,
      piece: Piece)
    requires AcceptedTogether(images) && SurvivesWithin(r, events, frame, images, piece)
    ensures UniquelySurvives(r, events, frame, images, piece)
  {
    hide IsWord;
    hide Yields;
    hide HeaderParser.Named;
    hide HeaderParser.Parse;
    hide IsAccepted;
    hide Lookup;
    if HeaderParser.Parse(events).Ok? {
      var es := HeaderParser.Named(HeaderParser.Parse(events).value.root.children, "Image");
      forall i | 0 <= i < |es|
        ensures es[i].Attr("id") == images[i].image.id
      {
        AcceptedIdKept(r, es[i], images[i]);
      }
    }
  }

  // -------------------------------------------------- what a header with too many elements looks like

  lemma {:induction false} ElementsApart(a: seq<Piece>, b: seq<Piece>)
    ensures ElementsIn(a + b) == ElementsIn(a) + ElementsIn(b)
  {
    if a == [] {
      assert a + b == b;
    } else {
      assert (a + b)[1..] == a[1..] + b;
      ElementsApart(a[1..], b);
    }
  }

  lemma {:induction false} OneElement(piece: Piece)
    ensures ElementsIn([piece]) == Elements(piece)
  {
    var one := [piece];
    assert one[1..] == [];
    assert ElementsIn(one) == Elements(piece) + ElementsIn([]);
  }

  /** An image's element, and one for each further block it owns, are among its elements. */
  lemma {:induction false} ImageElementCount(image: PendingImage, owned: ImageBlocks, addressing: Addressing,
      blocks: seq<StoredBlock>)
    requires InRange(image, owned, blocks)
    ensures Elements(ImagePiece(image, owned, addressing, blocks))
         >= NextIndex(owned) - owned.data + ElementsIn(TablePieces(image.tables))
  {
    hide ElementPairs;
    hide ThumbnailAttributes;
    hide Ancillary;
    hide TablePieces;
    hide HeaderTrees.CoreTag;
    var profile := MaybeLeaf(owned.icc.Some?, "ICCProfile", [], addressing, blocks, owned.icc.GetOr(0));
    var preview := MaybeLeaf(owned.thumbnail.Some?, "Thumbnail", ThumbnailAttributes(image), addressing, blocks,
                             owned.thumbnail.GetOr(0));
    ElementsApart(Ancillary(image) + (profile + preview), TablePieces(image.tables));
    ElementsApart(Ancillary(image), profile + preview);
    ElementsApart(profile, preview);
    if owned.icc.Some? {
      OneElement(profile[0]);
    }
    if owned.thumbnail.Some? {
      OneElement(preview[0]);
    }
  }

  /** Every block has an element of its own. */
  lemma {:induction false} BlocksHaveElements(images: seq<PendingImage>, stored: StoredBlocks, addressing: Addressing,
      k: nat, first: nat)
    requires AllInRange(images, stored) && k <= |images|
    requires Consecutive(stored.owners[k..], first, |stored.blocks|)
    ensures first <= |stored.blocks|
    ensures ElementsIn(ImagePieces(images, stored, addressing)[k..]) >= |stored.blocks| - first
    decreases |images| - k
  {
    hide ImagePiece;
    var pieces := ImagePieces(images, stored, addressing);
    if k < |images| {
      var owned := stored.owners[k];
      assert stored.owners[k..][1..] == stored.owners[k + 1..] && stored.owners[k..][0] == owned;
      BlocksHaveElements(images, stored, addressing, k + 1, NextIndex(owned));
      ImageElementCount(images[k], owned, addressing, stored.blocks);
      assert pieces[k..][1..] == pieces[k + 1..];
    }
  }

  /** A header within the parser's limits has fewer blocks than those allow elements. */
  lemma {:induction false} BlocksWithinLimits(frame: Frame, images: seq<PendingImage>, stored: StoredBlocks,
      addressing: Addressing)
    requires AllInRange(images, stored) && Consecutive(stored.owners, 0, |stored.blocks|)
    requires WithinLimits(HeaderPiece(frame, images, stored, addressing))
    ensures |stored.blocks| < MAX_ELEMENTS
  {
    var pieces := ImagePieces(images, stored, addressing);
    assert stored.owners[0..] == stored.owners && pieces[0..] == pieces;
    BlocksHaveElements(images, stored, addressing, 0, 0);
    ElementsApart(pieces, frame.trailer);
  }

  // -------------------------------------------------- a file that is written and never read

  /** A header with an image whose tables alone have as many elements as the parser allows is past its limits. */
  lemma {:induction false} TooManyElements(frame: Frame, images: seq<PendingImage>, stored: StoredBlocks,
      addressing: Addressing, k: nat)
    requires AllInRange(images, stored) && k < |images|
    requires ElementsIn(TablePieces(images[k].tables)) >= MAX_ELEMENTS
    ensures !WithinLimits(HeaderPiece(frame, images, stored, addressing))
  {
    hide ImagePiece;
    var pieces := ImagePieces(images, stored, addressing);
    ImageElementCount(images[k], stored.owners[k], addressing, stored.blocks);
    assert pieces == pieces[..k] + ([pieces[k]] + pieces[k + 1..]);
    ElementsApart(pieces[..k], [pieces[k]] + pieces[k + 1..]);
    ElementsApart([pieces[k]], pieces[k + 1..]);
    OneElement(pieces[k]);
    ElementsApart(pieces, frame.trailer);
  }

  /** A table of one column, and as many rows as asked for. */
  function LongTable(n: nat): Table
  {
    var field := Field("v", PropertyTypes.Single(PropertyTypes.Int32), None, None);
    Table("t", None, None, [field], seq(n, _ => [Cell(Some("0"), None, false)]))
  }

  lemma {:induction false} LetterIsProperty(id: string)
    requires |id| == 1 && IsLetter(id[0])
    ensures IsPropertyId(id)
  {
    SplitSingle(id, ':');
    assert id[1..] == "";
  }

  lemma {:induction false} LongTableAccepted(n: nat)
    ensures |LongTable(n).fields| == 1 && |LongTable(n).rows| == n
    ensures TablesFault([LongTable(n)]) == None && ElementsIn(TablePieces([LongTable(n)])) >= n
  {
    hide IsPropertyId;
    hide TablePiece;
    var t := LongTable(n);
    LetterIsProperty("t");
    LetterIsProperty("v");
    forall row | row in t.rows
      ensures |row| == 1 && InHeader(row)
    {
      assert row == [Cell(Some("0"), None, false)];
    }
    TablesAcceptedExactly([t]);
    TableElements(t);
    OneElement(TablePiece(t));
    assert TablePieces([t]) == [TablePiece(t)];
  }

  /** One black pixel, and a long table. */
  function PixelWithTable(n: nat): PendingImage
  {
    PendingImage(Image([1, 1], 1, UInt8, Gray, PlanarSamples.Planar, None, None, None, None, None, None),
                 [], [], None, [], [0], AS_GIVEN, None, None, [LongTable(n)])
  }

  lemma {:induction false} OnePixel()
    ensures DataSize(Shape([1, 1], 1, 1)) == Some(1)
  {
    assert [1, 1] + [1] == [1, 1, 1];
    assert CheckedProduct([1, 1, 1], 1) == CheckedProduct([1, 1], 1) == CheckedProduct([1], 1) == CheckedProduct([], 1);
  }

  /** The writer accepts and renders such an image, however long its table; a million rows are never read back. */
  lemma {:induction false} NeverReadBack(n: nat, frame: Frame, stored: StoredBlocks, addressing: Addressing)
    requires AllInRange([PixelWithTable(n)], stored) && MAX_ELEMENTS <= n < U64_LIMIT
    ensures IsAccepted(PixelWithTable(n)) && Renderable([PixelWithTable(n)])
    ensures !WithinLimits(HeaderPiece(frame, [PixelWithTable(n)], stored, addressing))
  {
    hide LongTable;
    hide IsRectangular;
    hide DataSize;
    hide HeaderPiece;
    hide WithinLimits;
    OnePixel();
    LongTableAccepted(n);
    TablesAcceptedExactly([LongTable(n)]);
    TooManyElements(frame, [PixelWithTable(n)], stored, addressing, 0);
  }
}
