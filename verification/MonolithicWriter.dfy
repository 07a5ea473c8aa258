/** Writing a monolithic file: preparing its blocks and settling the header's length. */
module MonolithicWriter {
  import opened Primitives
  import Locations
  import BlockAttributes
  import opened BlockCodec
  import GeometryAttribute
  import opened HeaderTree
  import opened HeaderDocument
  import opened HeaderTrees
  import opened HeaderText
  import opened ImageText
  import opened Colour

  // -------------------------------------------------- what is written

  /** A preview of an image: what it declares, and its data. */
  datatype PendingThumbnail = PendingThumbnail(image: Image, data: seq<byte>, options: BlockOptions)

  /** An RGB working space: its primaries, and what is written once its luminance coefficients are known. */
  datatype WorkingSpace = WorkingSpace(x: Vector, y: Vector, attributes: Vector -> seq<(string, string)>)

  /** An image: what it declares, its element's contents in order, and the data of up to three blocks. */
  datatype PendingImage = PendingImage(
    image: Image,
    keywords: seq<Keyword>,
    content: seq<Piece>,
    space: Option<WorkingSpace>,
    display: seq<Piece>,
    data: seq<byte>,
    options: BlockOptions,
    iccProfile: Option<seq<byte>>,
    thumbnail: Option<PendingThumbnail>,
    tables: seq<Table>)

  /** Which of the stored blocks are an image's own. */
  datatype ImageBlocks = ImageBlocks(data: nat, icc: Option<nat>, thumbnail: Option<nat>)

  datatype StoredBlocks = StoredBlocks(blocks: seq<StoredBlock>, owners: seq<ImageBlocks>)

  /** Storing bytes as they are, which cannot fail. */
  const AS_GIVEN := BlockOptions(None, None)

  /** An ICC profile as it is stored: bit 0 of the big-endian flags at offset 44 is set. */
  function WithEmbeddedFlag(profile: seq<byte>): Result<seq<byte>>
  {
    if |profile| < 128 then Err(InvalidArgument)
    else Ok(profile[47 := profile[47] / 2 * 2 + 1])
  }

  /** The number four bytes hold with the most significant first. */
  function BeValue(bytes: seq<byte>): nat
    requires |bytes| == 4
  {
    (bytes[0] as int) * 0x100_0000 + (bytes[1] as int) * 0x1_0000 + (bytes[2] as int) * 0x100 + bytes[3] as int
  }

  lemma {:induction false} LowestBitSet(a: byte, b: byte, c: byte, d: byte)
    ensures d / 2 * 2 + 1 < 256 && BeValue([a, b, c, d / 2 * 2 + 1]) == BeValue([a, b, c, d]) / 2 * 2 + 1
  {
    var high: int := a * 0x80_0000 + b * 0x8000 + c * 0x80;
    assert BeValue([a, b, c, d]) == 2 * high + d;
    assert (2 * high + d) / 2 == high + d / 2;
  }

  /** A profile too short for its header is refused; any other only has bit 0 of its flags set. */
  lemma {:induction false} EmbeddedFlagExactly(profile: seq<byte>)
    ensures WithEmbeddedFlag(profile).Ok? <==> |profile| >= 128
    ensures |profile| >= 128 ==>
      var out := WithEmbeddedFlag(profile).value;
      |out| == |profile| && out[..44] == profile[..44] && out[48..] == profile[48..]
      && BeValue(out[44..48]) == BeValue(profile[44..48]) / 2 * 2 + 1
      && WithEmbeddedFlag(out) == Ok(out)
  {
    if |profile| >= 128 {
      hide BeValue;
      var out := WithEmbeddedFlag(profile).value;
      assert out[44..48] == [profile[44], profile[45], profile[46], out[47]];
      assert profile[44..48] == [profile[44], profile[45], profile[46], profile[47]];
      LowestBitSet(profile[44], profile[45], profile[46], profile[47]);
      assert out[47 := out[47]] == out;
    }
  }

  /** Sizes a machine word can hold. */
  predicate Fitting(image: PendingImage)
  {
    |image.data| < U64_LIMIT
    && (image.iccProfile.Some? ==> |image.iccProfile.value| < U64_LIMIT)
    && (image.thumbnail.Some? ==> |image.thumbnail.value.data| < U64_LIMIT)
    && forall t <- image.tables :: |t.fields| < U64_LIMIT && |t.rows| < U64_LIMIT
  }

  function Push(engine: Engine, blocks: seq<StoredBlock>, data: seq<byte>,
      options: BlockOptions): (r: Result<seq<StoredBlock>>)
    requires |data| < U64_LIMIT
    ensures r.Ok? ==> Prepare(engine, data, options).Ok? && r.value == blocks + [Prepare(engine, data, options).value]
  {
    var b :- Prepare(engine, data, options);
    Ok(blocks + [b])
  }

  function PrepareProfile(engine: Engine, blocks: seq<StoredBlock>,
      profile: Option<seq<byte>>): Result<(seq<StoredBlock>, Option<nat>)>
    requires profile.Some? ==> |profile.value| < U64_LIMIT
  {
    match profile
    case None => Ok((blocks, None))
    case Some(p) =>
      var flagged :- WithEmbeddedFlag(p);
      Ok((blocks + [Prepare(engine, flagged, AS_GIVEN).value], Some(|blocks|)))
  }

  function PrepareThumbnail(engine: Engine, blocks: seq<StoredBlock>,
      thumbnail: Option<PendingThumbnail>): Result<(seq<StoredBlock>, Option<nat>)>
    requires thumbnail.Some? ==> |thumbnail.value.data| < U64_LIMIT
  {
    match thumbnail
    case None => Ok((blocks, None))
    case Some(t) =>
      var pushed :- Push(engine, blocks, t.data, t.options);
      Ok((pushed, Some(|blocks|)))
  }

  function PrepareImage(engine: Engine, stored: StoredBlocks, image: PendingImage): Result<StoredBlocks>
    requires Fitting(image)
  {
    var afterData :- Push(engine, stored.blocks, image.data, image.options);
    var (afterIcc, icc) :- PrepareProfile(engine, afterData, image.iccProfile);
    var (afterThumb, thumbnail) :- PrepareThumbnail(engine, afterIcc, image.thumbnail);
    Ok(StoredBlocks(afterThumb, stored.owners + [ImageBlocks(|stored.blocks|, icc, thumbnail)]))
  }

  function PrepareFrom(engine: Engine, stored: StoredBlocks, images: seq<PendingImage>): Result<StoredBlocks>
    requires forall i :: 0 <= i < |images| ==> Fitting(images[i])
    decreases |images|
  {
    if images == [] then Ok(stored)
    else
      var next :- PrepareImage(engine, stored, images[0]);
      PrepareFrom(engine, next, images[1..])
  }

  function PrepareAll(engine: Engine, images: seq<PendingImage>): Result<StoredBlocks>
    requires forall i :: 0 <= i < |images| ==> Fitting(images[i])
  {
    PrepareFrom(engine, StoredBlocks([], []), images)
  }

  /** Compress every block once, in the order they will be written, and record whose each is. */
  method PrepareBlocks(engine: Engine, images: seq<PendingImage>) returns (r: Result<StoredBlocks>)
    requires forall i :: 0 <= i < |images| ==> Fitting(images[i])
    ensures r == PrepareAll(engine, images)
  {
    var blocks: seq<StoredBlock> := [];
    var owners: seq<ImageBlocks> := [];
    assert images[0..] == images;
    for i := 0 to |images|
      invariant PrepareFrom(engine, StoredBlocks(blocks, owners), images[i..]) == PrepareAll(engine, images)
    {
      assert images[i..][1..] == images[i + 1..] && images[i..][0] == images[i];
      var next := PrepareOne(engine, StoredBlocks(blocks, owners), images[i]);
      if next.Err? {
        return Err(next.kind);
      }
      blocks, owners := next.value.blocks, next.value.owners;
    }
    return Ok(StoredBlocks(blocks, owners));
  }

  /** The loop body: push an image's pixels, then its profile, then its thumbnail. */
  method PrepareOne(engine: Engine, stored: StoredBlocks, image: PendingImage) returns (r: Result<StoredBlocks>)
    requires Fitting(image)
    ensures r == PrepareImage(engine, stored, image)
  {
    var blocks := stored.blocks;
    var data := Prepare(engine, image.data, image.options);
    if data.Err? {
      return Err(data.kind);
    }
    blocks := blocks + [data.value];
    var icc := None;
    if image.iccProfile.Some? {
      var flagged := WithEmbeddedFlag(image.iccProfile.value);
      if flagged.Err? {
        return Err(flagged.kind);
      }
      var block := Prepare(engine, flagged.value, AS_GIVEN);
      icc := Some(|blocks|);
      blocks := blocks + [block.value];
    }
    var thumbnail := None;
    if image.thumbnail.Some? {
      var block := Prepare(engine, image.thumbnail.value.data, image.thumbnail.value.options);
      if block.Err? {
        return Err(block.kind);
      }
      thumbnail := Some(|blocks|);
      blocks := blocks + [block.value];
    }
    return Ok(StoredBlocks(blocks, stored.owners + [ImageBlocks(|stored.blocks|, icc, thumbnail)]));
  }

  // -------------------------------------------------- whose each block is

  function NextIndex(owned: ImageBlocks): nat
  {
    owned.data + 1 + (if owned.icc.Some? then 1 else 0) + (if owned.thumbnail.Some? then 1 else 0)
  }

  /** An image's blocks stand in its own order, each prepared from its own data. */
  ghost predicate Placed(engine: Engine, blocks: seq<StoredBlock>, image: PendingImage, owned: ImageBlocks)
    requires Fitting(image)
  {
    NextIndex(owned) <= |blocks|
    && Prepare(engine, image.data, image.options) == Ok(blocks[owned.data])
    && (owned.icc.Some? <==> image.iccProfile.Some?)
    && (owned.icc.Some? ==>
          owned.icc.value == owned.data + 1 && WithEmbeddedFlag(image.iccProfile.value).Ok?
          && Prepare(engine, WithEmbeddedFlag(image.iccProfile.value).value, AS_GIVEN) == Ok(blocks[owned.icc.value]))
    && (owned.thumbnail.Some? <==> image.thumbnail.Some?)
    && (owned.thumbnail.Some? ==>
          owned.thumbnail.value == NextIndex(owned) - 1
          && Prepare(engine, image.thumbnail.value.data, image.thumbnail.value.options)
             == Ok(blocks[owned.thumbnail.value]))
  }

  /** Owners follow one another from block `first` without gaps, and end at block `last`. */
  ghost predicate Consecutive(owners: seq<ImageBlocks>, first: nat, last: nat)
    decreases |owners|
  {
    if owners == [] then first == last
    else owners[0].data == first && Consecutive(owners[1..], NextIndex(owners[0]), last)
         && (owners[0].icc.Some? ==> owners[0].icc.value == first + 1)
         && (owners[0].thumbnail.Some? ==> owners[0].thumbnail.value == NextIndex(owners[0]) - 1)
  }

  lemma {:induction false} PreparedImageIsPlaced(engine: Engine, stored: StoredBlocks, image: PendingImage)
    requires Fitting(image) && PrepareImage(engine, stored, image).Ok?
    ensures var next := PrepareImage(engine, stored, image).value;
      |next.owners| == |stored.owners| + 1 && next.owners[..|stored.owners|] == stored.owners
      && stored.blocks <= next.blocks
      && var owned := next.owners[|stored.owners|];
         owned.data == |stored.blocks| && NextIndex(owned) == |next.blocks| && Placed(engine, next.blocks, image, owned)
  {
  }

  lemma {:induction false} PlacedInLonger(engine: Engine, blocks: seq<StoredBlock>, longer: seq<StoredBlock>,
      image: PendingImage, owned: ImageBlocks)
    requires Fitting(image) && Placed(engine, blocks, image, owned) && blocks <= longer
    ensures Placed(engine, longer, image, owned)
  {
  }

  /** Preparing places every image, in order, and no block is left over. */
  lemma {:induction false} PreparedIsPlaced(engine: Engine, stored: StoredBlocks, images: seq<PendingImage>)
    requires forall i :: 0 <= i < |images| ==> Fitting(images[i])
    requires PrepareFrom(engine, stored, images).Ok?
    ensures var all := PrepareFrom(engine, stored, images).value; var n := |stored.owners|;
      |all.owners| == n + |images| && all.owners[..n] == stored.owners && stored.blocks <= all.blocks
      && Consecutive(all.owners[n..], |stored.blocks|, |all.blocks|)
      && forall i :: 0 <= i < |images| ==> Placed(engine, all.blocks, images[i], all.owners[n + i])
    decreases |images|
  {
    var n := |stored.owners|;
    if images == [] {
      assert stored.owners[n..] == [];
    } else {
      PreparedImageIsPlaced(engine, stored, images[0]);
      var next := PrepareImage(engine, stored, images[0]).value;
      PreparedIsPlaced(engine, next, images[1..]);
      var all := PrepareFrom(engine, stored, images).value;
      assert all.owners[n] == next.owners[n];
      PlacedInLonger(engine, next.blocks, all.blocks, images[0], all.owners[n]);
      assert all.owners[n..][1..] == all.owners[n + 1..];
      forall i | 0 <= i < |images|
        ensures Placed(engine, all.blocks, images[i], all.owners[n + i])
      {
        if i > 0 {
          assert images[i] == images[1..][i - 1];
        }
      }
    }
  }

  // -------------------------------------------------- rendering the header

  /** What block locations are given relative to. */
  datatype Addressing = Attached(dataAt: nat) | Distributed(blocksFile: string)

  function BlockId(index: nat): nat { index + 1 }

  function StoredParts(blocks: seq<StoredBlock>): (parts: seq<seq<byte>>)
    ensures |parts| == |blocks|
  {
    seq(|blocks|, i requires 0 <= i < |blocks| => blocks[i].bytes)
  }

  /** The bytes of the blocks, laid end to end. */
  function BlockBytes(blocks: seq<StoredBlock>): seq<byte> { Concat(StoredParts(blocks)) }

  /** How far into the data block `i` begins. */
  function Offset(blocks: seq<StoredBlock>, i: nat): nat
    requires i <= |blocks|
  {
    |BlockBytes(blocks[..i])|
  }

  /** A locator before its attribute is escaped. */
  function Locator(addressing: Addressing, blocks: seq<StoredBlock>, i: nat): string
    requires i < |blocks|
  {
    match addressing
    case Attached(dataAt) => Locations.AttachmentText(dataAt + Offset(blocks, i), |blocks[i].bytes|)
    case Distributed(name) => Locations.ExternalText(name, BlockId(i))
  }

  /** A codec and a digest are told only of a block that has them. */
  function BlockPairs(b: StoredBlock): seq<(string, string)>
  {
    (if b.compression.Some? then [("compression", BlockAttributes.CompressionText(b.compression.value))] else [])
    + (if b.checksum.Some? then [("checksum", BlockAttributes.ChecksumText(b.checksum.value))] else [])
  }

  function ElementPairs(own: seq<(string, string)>, addressing: Addressing, blocks: seq<StoredBlock>,
      i: nat): seq<(string, string)>
    requires i < |blocks|
  {
    own + BlockPairs(blocks[i]) + [("location", Locator(addressing, blocks, i))]
  }

  /** The attributes of an image's element before those of its block. */
  function OwnAttributes(shape: Shape, attributes: seq<(string, string)>): seq<(string, string)>
  {
    [("geometry", GeometryAttribute.GeometryText(shape.dimensions, shape.channels))] + attributes
  }

  function ImageOwn(image: PendingImage): seq<(string, string)>
  {
    OwnAttributes(ShapeOf(image.image), DeclaredAttributes(image.image))
  }

  function PreviewOwn(preview: PendingThumbnail): seq<(string, string)>
  {
    OwnAttributes(ShapeOf(preview.image), PreviewAttributes(preview.image))
  }

  function ThumbnailAttributes(image: PendingImage): seq<(string, string)>
  {
    if image.thumbnail.Some? then PreviewOwn(image.thumbnail.value) else []
  }

  /** One leaf element with a locator, or nothing. */
  function MaybeLeaf(present: bool, name: string, own: seq<(string, string)>, addressing: Addressing,
      blocks: seq<StoredBlock>, i: nat): seq<Piece>
    requires present ==> i < |blocks|
  {
    if present then [Leaf(CoreTag(name, ElementPairs(own, addressing, blocks, i)))] else []
  }

  /** The luminance coefficients are derived, never taken from the caller; degenerate primaries have none. */
  function SpacePieces(space: Option<WorkingSpace>): seq<Piece>
  {
    if space.None? then []
    else
      match Derived(space.value.x, space.value.y)
      case None => []
      case Some(luminance) => [Leaf(CoreTag("RGBWorkingSpace", space.value.attributes(luminance)))]
  }

  predicate Degenerate(image: PendingImage)
  {
    image.space.Some? && Derived(image.space.value.x, image.space.value.y).None?
  }

  /** The elements of an image that no block belongs to, but for its tables. */
  function Ancillary(image: PendingImage): seq<Piece>
  {
    KeywordPieces(image.keywords) + image.content + SpacePieces(image.space) + image.display
  }

  /** The elements of an image's own extra blocks. */
  function ExtraPieces(image: PendingImage, owned: ImageBlocks, addressing: Addressing,
      blocks: seq<StoredBlock>): seq<Piece>
    requires owned.icc.Some? ==> owned.icc.value < |blocks|
    requires owned.thumbnail.Some? ==> owned.thumbnail.value < |blocks|
  {
    MaybeLeaf(owned.icc.Some?, "ICCProfile", [], addressing, blocks, owned.icc.GetOr(0))
    + MaybeLeaf(owned.thumbnail.Some?, "Thumbnail", ThumbnailAttributes(image), addressing, blocks,
                owned.thumbnail.GetOr(0))
  }

  predicate InRange(image: PendingImage, owned: ImageBlocks, blocks: seq<StoredBlock>)
  {
    owned.data < |blocks|
    && (owned.icc.Some? ==> owned.icc.value < |blocks|)
    && (owned.thumbnail.Some? ==> owned.thumbnail.value < |blocks| && image.thumbnail.Some?)
  }

  function ImagePiece(image: PendingImage, owned: ImageBlocks, addressing: Addressing, blocks: seq<StoredBlock>): Piece
    requires InRange(image, owned, blocks)
  {
    Node(CoreTag("Image", ElementPairs(ImageOwn(image), addressing, blocks, owned.data)),
         Ancillary(image) + ExtraPieces(image, owned, addressing, blocks) + TablePieces(image.tables))
  }

  predicate AllInRange(images: seq<PendingImage>, stored: StoredBlocks)
  {
    |stored.owners| == |images|
    && forall i :: 0 <= i < |images| ==> InRange(images[i], stored.owners[i], stored.blocks)
  }

  function ImagePieces(images: seq<PendingImage>, stored: StoredBlocks, addressing: Addressing): (pieces: seq<Piece>)
    requires AllInRange(images, stored)
    ensures |pieces| == |images|
  {
    seq(|images|, i requires 0 <= i < |images| => ImagePiece(images[i], stored.owners[i], addressing, stored.blocks))
  }

  /** What surrounds the images: the root's attributes, and the elements after the last image. */
  datatype Frame = Frame(attributes: seq<(string, string)>, trailer: seq<Piece>)

  function HeaderPiece(frame: Frame, images: seq<PendingImage>, stored: StoredBlocks, addressing: Addressing): Piece
    requires AllInRange(images, stored)
  {
    Node(CoreTag("xisf", frame.attributes), ImagePieces(images, stored, addressing) + frame.trailer)
  }

  function HeaderBytes(frame: Frame, images: seq<PendingImage>, stored: StoredBlocks, addressing: Addressing): seq<byte>
    requires AllInRange(images, stored)
  {
    Utf8(XML_DECLARATION + Print(HeaderPiece(frame, images, stored, addressing)))
  }

  /** Each block begins where the one before it ends. */
  method SettlePositions(blocks: seq<StoredBlock>, dataAt: nat) returns (positions: seq<nat>)
    ensures |positions| == |blocks|
    ensures forall i :: 0 <= i < |blocks| ==> positions[i] == dataAt + Offset(blocks, i)
  {
    positions := [];
    var cursor := dataAt;
    for i := 0 to |blocks|
      invariant |positions| == i && cursor == dataAt + Offset(blocks, i)
      invariant forall k :: 0 <= k < i ==> positions[k] == dataAt + Offset(blocks, k)
    {
      positions := positions + [cursor];
      OffsetStep(blocks, i);
      cursor := cursor + |blocks[i].bytes|;
    }
  }

  lemma {:induction false} OffsetStep(blocks: seq<StoredBlock>, i: nat)
    requires i < |blocks|
    ensures Offset(blocks, i + 1) == Offset(blocks, i) + |blocks[i].bytes|
  {
    BlockBytesNext(blocks, i);
  }

  lemma {:induction false} StoredPartsPrefix(blocks: seq<StoredBlock>, i: nat)
    requires i <= |blocks|
    ensures StoredParts(blocks[..i]) == StoredParts(blocks)[..i]
  {
  }

  lemma {:induction false} BlockBytesNext(blocks: seq<StoredBlock>, i: nat)
    requires i < |blocks|
    ensures BlockBytes(blocks[..i + 1]) == BlockBytes(blocks[..i]) + blocks[i].bytes
  {
    hide Concat;
    StoredPartsPrefix(blocks, i);
    StoredPartsPrefix(blocks, i + 1);
    ConcatNext(StoredParts(blocks), i);
  }

  /** The loop over elements, each appended to the text. */
  method AppendPieces(open: string, pieces: seq<Piece>) returns (xml: string)
    ensures xml == open + PrintAll(pieces)
  {
    xml := open;
    for i := 0 to |pieces|
      invariant xml == open + PrintAll(pieces[..i])
    {
      PieceAppends(open, pieces, i);
      xml := xml + Print(pieces[i]);
    }
    assert pieces[..|pieces|] == pieces;
  }

  lemma {:induction false} PieceAppends(open: string, pieces: seq<Piece>, i: nat)
    requires i < |pieces|
    ensures open + PrintAll(pieces[..i]) + Print(pieces[i]) == open + PrintAll(pieces[..i + 1])
  {
    PrintAllNext(pieces, i);
    Appended(open, PrintAll(pieces[..i]), Print(pieces[i]));
  }

  lemma {:induction false} NothingAppends(open: string)
    ensures open + PrintAll([]) == open
  {
  }

  lemma {:induction false} Appended(a: string, b: string, c: string)
    ensures (a + b) + c == a + (b + c)
  {
  }

  /** Whether every working space among the images has luminance coefficients. */
  predicate Renderable(images: seq<PendingImage>)
  {
    forall i :: 0 <= i < |images| ==> !Degenerate(images[i])
  }

  /** The loop over images, which stops at the first working space that has no luminance coefficients. */
  method AppendImages(open: string, images: seq<PendingImage>, stored: StoredBlocks,
      addressing: Addressing) returns (r: Result<string>)
    requires AllInRange(images, stored)
    ensures r ==
      if Renderable(images) then Ok(open + PrintAll(ImagePieces(images, stored, addressing))) else Err(InvalidArgument)
  {
    hide Derived;
    hide ImagePiece;
    hide PrintAll;
    hide Print;
    ghost var pieces := ImagePieces(images, stored, addressing);
    var xml := open;
    NothingAppends(open);
    assert pieces[..0] == [];
    for i := 0 to |images|
      invariant forall k :: 0 <= k < i ==> !Degenerate(images[k])
      invariant xml == open + PrintAll(pieces[..i])
    {
      if images[i].space.Some? {
        var luminance := DeriveLuminance(images[i].space.value.x, images[i].space.value.y);
        if luminance.None? {
          return Err(InvalidArgument);
        }
      }
      var piece := ImagePiece(images[i], stored.owners[i], addressing, stored.blocks);
      PieceAppends(open, pieces, i);
      xml := xml + Print(piece);
    }
    assert pieces[..|images|] == pieces;
    return Ok(xml);
  }

  method Render(frame: Frame, images: seq<PendingImage>, stored: StoredBlocks,
      addressing: Addressing) returns (r: Result<seq<byte>>)
    requires AllInRange(images, stored)
    ensures r == if Renderable(images) then Ok(HeaderBytes(frame, images, stored, addressing)) else Err(InvalidArgument)
  {
    hide Renderable;
    hide ImagePieces;
    var tag := CoreTag("xisf", frame.attributes);
    var open := "<" + tag.name + PrintAttributes(tag.attributes) + ">";
    var rendered := AppendImages(open, images, stored, addressing);
    if rendered.Err? {
      return Err(rendered.kind);
    }
    var xml := AppendPieces(rendered.value, frame.trailer);
    xml := xml + ("</" + tag.name + ">");
    HeaderPrints(frame, images, stored, addressing, open);
    return Ok(Utf8(XML_DECLARATION + xml));
  }

  lemma {:induction false} HeaderPrints(frame: Frame, images: seq<PendingImage>, stored: StoredBlocks,
      addressing: Addressing, open: string)
    requires AllInRange(images, stored)
    requires open == "<" + "xisf" + PrintAttributes(RawAttributes(frame.attributes)) + ">"
    ensures Print(HeaderPiece(frame, images, stored, addressing))
         == open + PrintAll(ImagePieces(images, stored, addressing)) + PrintAll(frame.trailer) + ("</" + "xisf" + ">")
  {
    hide PrintAttributes;
    hide PrintAll;
    hide ImagePieces;
    var pieces := ImagePieces(images, stored, addressing);
    NodePrints(CoreTag("xisf", frame.attributes), pieces + frame.trailer, open);
    PrintAllConcat(pieces, frame.trailer);
    Joined(open, PrintAll(pieces), PrintAll(frame.trailer), "</" + "xisf" + ">");
  }

  lemma {:induction false} NodePrints(tag: Tag, items: seq<Piece>, open: string)
    requires open == "<" + tag.name + PrintAttributes(tag.attributes) + ">"
    ensures Print(Node(tag, items)) == open + PrintAll(items) + ("</" + tag.name + ">")
  {
    hide PrintAttributes;
    hide PrintAll;
  }

  lemma {:induction false} Joined(a: string, b: string, c: string, d: string)
    ensures a + (b + c) + d == a + b + c + d
  {
  }

  lemma {:induction false} PrintAllNext(pieces: seq<Piece>, i: nat)
    requires i < |pieces|
    ensures PrintAll(pieces[..i + 1]) == PrintAll(pieces[..i]) + Print(pieces[i])
  {
    var one := [pieces[i]];
    PrintAllConcat(pieces[..i], one);
    assert one[1..] == [];
    assert PrintAll(one) == Print(one[0]) + PrintAll([]);
    assert pieces[..i + 1] == pieces[..i] + one;
  }
}
