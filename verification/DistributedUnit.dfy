/** A distributed unit: a header that names its blocks by identifier, and the blocks file it names. */
module DistributedUnit {
  import opened Primitives
  import Text
  import XmlText
  import opened Locations
  import opened BlockCodec
  import HeaderTree
  import HeaderText
  import HeaderLexing
  import opened FileLayout
  import opened MonolithicWriter
  import opened WrittenElements
  import opened LexedHeader
  import opened WrittenHeader
  import opened BlockReader
  import MonolithicFile
  import ImageYields
  import WrittenImages
  import BlocksFile
  import ExternalBlocks
  import BlocksWriter

  datatype Unit = Unit(header: seq<byte>, blocks: seq<byte>, blocksFileName: string)

  /** A name with no directory in it. */
  predicate PlainFileName(name: string) { name != "" && '/' !in name }

  predicate NoEmptyBlock(blocks: seq<StoredBlock>)
  {
    forall i :: 0 <= i < |blocks| ==> blocks[i].bytes != []
  }

  /** Whether a blocks file of these blocks has 64-bit positions. */
  predicate Placeable(blocks: seq<StoredBlock>)
  {
    32 + |blocks| * BlocksFile.ELEMENT_SIZE + |BlockBytes(blocks)| < U64_LIMIT
  }

  /** The blocks as the blocks file is to index them. */
  function Indexed(blocks: seq<StoredBlock>): (pending: seq<BlocksWriter.PendingBlock>)
    requires |blocks| < U64_LIMIT - 1
    ensures |pending| == |blocks|
  {
    seq(|blocks|, i requires 0 <= i < |blocks| => IndexedBlock(blocks[i], i))
  }

  function IndexedBlock(b: StoredBlock, i: nat): BlocksWriter.PendingBlock
    requires i < U64_LIMIT - 1
  {
    BlocksWriter.PendingBlock(BlockId(i), b.bytes,
      match b.compression
      case None => None
      case Some(compression) => Some(compression.uncompressedSize))
  }

  /** Block identifiers never repeat, and the blocks file holds the blocks' bytes in order. */
  lemma {:induction false} IndexedIsWritable(blocks: seq<StoredBlock>)
    requires Placeable(blocks)
    ensures var pending := Indexed(blocks);
      BlocksWriter.DistinctIds(pending) && BlocksWriter.Payload(pending) == BlockBytes(blocks)
      && (BlocksWriter.NoneEmpty(pending) <==> NoEmptyBlock(blocks))
  {
    var pending := Indexed(blocks);
    assert BlocksWriter.PendingParts(pending) == StoredParts(blocks);
    forall i | 0 <= i < |blocks|
      ensures pending[i] in pending && pending[i].bytes == blocks[i].bytes
    {
    }
  }

  /** What a unit holds: the two files agree on the name and on every identifier. */
  ghost predicate IsUnit(unit: Unit, frame: Frame, images: seq<PendingImage>, stored: StoredBlocks, name: string)
  {
    AllInRange(images, stored) && Placeable(stored.blocks)
    && unit.blocksFileName == name
    && unit.header == HeaderBytes(frame, images, stored, Distributed(name))
    && BlocksWriter.Payload(Indexed(stored.blocks)) == BlockBytes(stored.blocks)
    && unit.blocks == BlocksWriter.WrittenFile(Indexed(stored.blocks))
  }

  /** Serialise as a distributed unit: no fixed point is needed, since identifiers do not move. */
  method ToDistributed(w: MonolithicFile.Writer, engine: Engine, name: string) returns (r: Result<Unit>)
    requires w.Valid()
    requires PrepareAll(engine, w.images).Ok? ==> Placeable(PrepareAll(engine, w.images).value.blocks)
    ensures !PlainFileName(name) ==> r == Err(InvalidArgument)
    ensures PlainFileName(name) && PrepareAll(engine, w.images).Err? ==> r == Err(PrepareAll(engine, w.images).kind)
    ensures PlainFileName(name) && PrepareAll(engine, w.images).Ok? ==>
      var stored := PrepareAll(engine, w.images).value;
      if Renderable(w.images) && NoEmptyBlock(stored.blocks) then
        r.Ok? && IsUnit(r.value, w.frame, w.images, stored, name)
      else r == Err(InvalidArgument)
  {
    if name == "" || '/' in name {
      return Err(InvalidArgument);
    }
    var prepared := PrepareBlocks(engine, w.images);
    if prepared.Err? {
      return Err(prepared.kind);
    }
    var stored := prepared.value;
    MonolithicFile.PreparedShape(engine, w.images);
    IndexedIsWritable(stored.blocks);
    var blocks := Indexed(stored.blocks);
    var header := Render(w.frame, w.images, stored, Distributed(name));
    if header.Err? {
      return Err(header.kind);
    }
    var written := BlocksWriter.WriteBlocksFile(blocks);
    if written.Err? {
      return Err(written.kind);
    }
    return Ok(Unit(header.value, written.value, name));
  }

  // -------------------------------------------------- reading a unit back

  /** A written header opens with an XML declaration, so its file is scanned as a header and nothing more. */
  lemma {:induction false} HeaderIsHeaderFile(frame: Frame, images: seq<PendingImage>, stored: StoredBlocks,
      addressing: Addressing)
    requires AllInRange(images, stored)
    ensures var header := HeaderBytes(frame, images, stored, addressing);
      Scan(header) == Ok(Layout(0, |header|, HeaderFile))
  {
    var header := HeaderBytes(frame, images, stored, addressing);
    var text := HeaderText.XML_DECLARATION + HeaderText.Print(HeaderPiece(frame, images, stored, addressing));
    assert text[0] == '<';
    assert header[0] == 0x3C;
    XmlIsHeaderFile(header);
  }

  /** The file a reader takes a unit's locators to name: the attribute is normalized, and then the locator trimmed. */
  function NamedFile(name: string): string { Text.TrimEnd(HEADER_DIR_TOKEN + "/" + XmlText.Folded(name)) }

  /** That is the file itself exactly when its name has no tab, line end or trailing white space. */
  lemma {:induction false} NamedFileExactly(name: string)
    ensures NamedFile(name) == HEADER_DIR_TOKEN + "/" + name
       <==> !XmlText.HasFoldedChar(name) && !Text.EndsInWhiteSpace(name)
  {
    hide ParseLocation;
    ExternalReads(XmlText.Folded(name), 0);
    DistributedLocatorExactly(name, 0);
  }

  /** A space at the end of a name is lost, and a tab inside it is another character. */
  lemma {:induction false} NamesLost()
    ensures NamedFile("a ") != HEADER_DIR_TOKEN + "/" + "a " && NamedFile("a\tb") != HEADER_DIR_TOKEN + "/" + "a\tb"
  {
    NamedFileExactly("a ");
    NamedFileExactly("a\tb");
    assert "a\tb"[1] == '\t';
  }

  /** A reader of the unit's header for whom the file its locators name is the unit's blocks file. */
  ghost predicate Beside(r: Reader, unit: Unit)
  {
    r.source == unit.header && Scan(r.source) == Ok(r.layout)
    && |unit.blocks| < U64_LIMIT && r.env.resolve(NamedFile(unit.blocksFileName)) == Ok(unit.blocks)
  }

  /** What the identifier of block `i` fetches: the block, if the 32-bit count reached it. */
  lemma {:induction false} UnitBlockFetched(r: Reader, unit: Unit, blocks: seq<StoredBlock>, i: nat)
    requires Placeable(blocks) && i < |blocks|
    requires BlocksWriter.Payload(Indexed(blocks)) == BlockBytes(blocks)
    requires unit.blocks == BlocksWriter.WrittenFile(Indexed(blocks))
    requires Beside(r, unit) && r.layout.form == HeaderFile
    ensures var addressing := AddressingAsRead(Distributed(unit.blocksFileName));
      Locatable(addressing, blocks)
      && StoredUnchecked(r, Located(LocationOf(addressing, blocks, i), blocks[i]))
         == if i < BlocksWriter.CountField(|blocks|) then Ok(blocks[i].bytes) else Err(NotFound)
  {
    hide Text.TrimEnd;
    hide XmlText.Folded;
    hide ExternalBlocks.ReadExternal;
    hide BlocksWriter.WrittenFile;
    hide BlocksWriter.Payload;
    hide BlockBytes;
    IndexedIsWritable(blocks);
    BlocksWriter.WrittenBlockFetched(Indexed(blocks), i);
  }

  /**
    The distributed round trip. The header file is scanned whole; lexing and parsing it gives one element an
    image, in order; and through the blocks file its locators name each yields what that image was given. All
    this holds exactly if the header is within the parser's limits, which leave no room for more blocks than
    the blocks file can count; otherwise it is refused.
   */
  lemma {:induction false} UnitSurvives(r: Reader, lex: seq<byte> -> seq<HeaderTree.Event>, unit: Unit, frame: Frame,
      images: seq<PendingImage>, stored: StoredBlocks)
    requires HeaderLexing.Lexes(lex) && WrittenImages.Writable(r.env.engine, frame, images, stored)
    requires IsUnit(unit, frame, images, stored, unit.blocksFileName) && Beside(r, unit)
    ensures r.layout == Layout(0, |unit.header|, HeaderFile)
    ensures WrittenImages.SurvivesWithin(r, lex(r.source[r.layout.start..r.layout.end]), frame, images,
                                         HeaderPiece(frame, images, stored, Distributed(unit.blocksFileName)))
  {
    hide HeaderBytes;
    hide HeaderPiece;
    hide WithinLimits;
    hide WrittenImages.Writable;
    hide HeaderLexing.Lexes;
    hide BlocksWriter.WrittenFile;
    hide BlocksWriter.Payload;
    hide BlockBytes;
    var addressing, blocks := Distributed(unit.blocksFileName), stored.blocks;
    var at := AddressingAsRead(addressing);
    HeaderIsHeaderFile(frame, images, stored, addressing);
    if WithinLimits(HeaderPiece(frame, images, stored, addressing)) {
      UnitBlocksCounted(r.env.engine, frame, images, stored, addressing);
      forall i | 0 <= i < |blocks|
        ensures StoredUnchecked(r, Located(LocationOf(at, blocks, i), blocks[i])) == Ok(blocks[i].bytes)
      {
        UnitBlockFetched(r, unit, blocks, i);
      }
      assert ImageYields.Fetchable(r, at, blocks);
    }
    assert r.source[..|r.source|] == r.source;
    WrittenImages.ImagesSurvive(r, lex, frame, images, stored, addressing);
  }

  lemma {:induction false} UnitBlocksCounted(engine: Engine, frame: Frame, images: seq<PendingImage>,
      stored: StoredBlocks, addressing: Addressing)
    requires WrittenImages.Writable(engine, frame, images, stored) && AllInRange(images, stored)
    requires WithinLimits(HeaderPiece(frame, images, stored, addressing))
    ensures |stored.blocks| < U32_LIMIT
  {
    hide HeaderPiece;
    hide WithinLimits;
    MonolithicFile.PreparedShape(engine, images);
    WrittenImages.BlocksWithinLimits(frame, images, stored, addressing);
  }

  // -------------------------------------------------- writing and reading

  /** What scanning, lexing and parsing a unit's header comes to: the images it was written for. */
  ghost predicate UnitReads(unit: Unit, lex: seq<byte> -> seq<HeaderTree.Event>, env: Environment, frame: Frame,
      images: seq<PendingImage>, stored: StoredBlocks)
    requires |unit.header| < U64_LIMIT
  {
    var layout := Layout(0, |unit.header|, HeaderFile);
    Scan(unit.header) == Ok(layout) && AllInRange(images, stored)
    && WrittenImages.UniquelySurvives(Reader(unit.header, layout, env), lex(unit.header), frame, images,
                                      HeaderPiece(frame, images, stored, Distributed(unit.blocksFileName)))
  }

  lemma {:induction false} UnitReadsBack(unit: Unit, lex: seq<byte> -> seq<HeaderTree.Event>, env: Environment,
      frame: Frame, images: seq<PendingImage>, stored: StoredBlocks)
    requires HeaderLexing.Lexes(lex) && WrittenImages.Writable(env.engine, frame, images, stored)
    requires MonolithicFile.AcceptedTogether(images) && IsUnit(unit, frame, images, stored, unit.blocksFileName)
    requires |unit.header| < U64_LIMIT && |unit.blocks| < U64_LIMIT
    requires env.resolve(NamedFile(unit.blocksFileName)) == Ok(unit.blocks)
    ensures UnitReads(unit, lex, env, frame, images, stored)
  {
    hide HeaderBytes;
    hide HeaderPiece;
    hide HeaderLexing.Lexes;
    hide WrittenImages.SurvivesWithin;
    hide WrittenImages.UniquelySurvives;
    hide WrittenImages.Writable;
    hide BlocksWriter.WrittenFile;
    hide BlocksWriter.Payload;
    hide NamedFile;
    var addressing := Distributed(unit.blocksFileName);
    var r := Reader(unit.header, Layout(0, |unit.header|, HeaderFile), env);
    HeaderIsHeaderFile(frame, images, stored, addressing);
    UnitSurvives(r, lex, unit, frame, images, stored);
    assert unit.header[0..|unit.header|] == unit.header;
    WrittenImages.IdsAreUnique(r, lex(unit.header), frame, images, HeaderPiece(frame, images, stored, addressing));
  }

  /** A unit a writer has made of its images. */
  ghost predicate IsUnitOf(unit: Unit, engine: Engine, frame: Frame, images: seq<PendingImage>)
    requires WrittenImages.PrepareAllowed(images)
  {
    PrepareAll(engine, images).Ok? && IsUnit(unit, frame, images, PrepareAll(engine, images).value, unit.blocksFileName)
  }

  lemma {:induction false} UnitOfReadsBack(unit: Unit, lex: seq<byte> -> seq<HeaderTree.Event>, env: Environment,
      frame: Frame, images: seq<PendingImage>)
    requires HeaderLexing.Lexes(lex) && Lawful(env.engine) && WrittenImages.ReadableTexts(frame, images)
    requires MonolithicFile.AcceptedTogether(images) && WrittenImages.PrepareAllowed(images)
    requires IsUnitOf(unit, env.engine, frame, images) && |unit.header| < U64_LIMIT && |unit.blocks| < U64_LIMIT
    requires env.resolve(NamedFile(unit.blocksFileName)) == Ok(unit.blocks)
    ensures UnitReads(unit, lex, env, frame, images, PrepareAll(env.engine, images).value)
  {
    hide IsUnit;
    hide HeaderLexing.Lexes;
    hide WrittenImages.ReadableTexts;
    hide MonolithicFile.AcceptedTogether;
    hide Lawful;
    hide PrepareAll;
    hide NamedFile;
    hide UnitReads;
    UnitReadsBack(unit, lex, env, frame, images, PrepareAll(env.engine, images).value);
  }

  /** Serialise as a distributed unit: the only results are those that `UnitOfReadsBack` speaks of. */
  method WriteUnitOf(w: MonolithicFile.Writer, engine: Engine, name: string) returns (r: Result<Unit>)
    requires w.Valid()
    requires PrepareAll(engine, w.images).Ok? ==> Placeable(PrepareAll(engine, w.images).value.blocks)
    ensures WrittenImages.PrepareAllowed(w.images)
    ensures r.Ok? ==> r.value.blocksFileName == name && IsUnitOf(r.value, engine, w.frame, w.images)
  {
    WrittenImages.AcceptedFit(w.images);
    hide MonolithicFile.IsAccepted;
    hide PrepareAll;
    hide Placeable;
    hide Renderable;
    hide NoEmptyBlock;
    hide BlocksWriter.WrittenFile;
    hide HeaderBytes;
    r := ToDistributed(w, engine, name);
  }

  /** Serialise as a distributed unit; wherever the file its locators name is its blocks file, it reads back. */
  method WriteUnit(w: MonolithicFile.Writer, name: string, ghost lex: seq<byte> -> seq<HeaderTree.Event>,
      env: Environment)
      returns (r: Result<Unit>)
    requires w.Valid() && HeaderLexing.Lexes(lex) && Lawful(env.engine)
    requires WrittenImages.ReadableTexts(w.frame, w.images)
    requires PrepareAll(env.engine, w.images).Ok? ==> Placeable(PrepareAll(env.engine, w.images).value.blocks)
    ensures WrittenImages.PrepareAllowed(w.images)
    ensures r.Ok? && |r.value.header| < U64_LIMIT && |r.value.blocks| < U64_LIMIT
            && env.resolve(NamedFile(name)) == Ok(r.value.blocks) ==>
      r.value.blocksFileName == name && PrepareAll(env.engine, w.images).Ok?
      && UnitReads(r.value, lex, env, w.frame, w.images, PrepareAll(env.engine, w.images).value)
  {
    assert MonolithicFile.AcceptedTogether(w.images);
    WrittenImages.AcceptedFit(w.images);
    assert forall unit :: IsUnitOf(unit, env.engine, w.frame, w.images) ==> PrepareAll(env.engine, w.images).Ok?;
    hide *;
    r := WriteUnitOf(w, env.engine, name);
    if r.Ok? && |r.value.header| < U64_LIMIT && |r.value.blocks| < U64_LIMIT
       && env.resolve(NamedFile(name)) == Ok(r.value.blocks) {
      UnitOfReadsBack(r.value, lex, env, w.frame, w.images);
    }
  }
}
