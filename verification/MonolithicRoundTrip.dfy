/** The end-to-end claim: what a reader gets out of a written file is what the writer was given. */
module MonolithicRoundTrip {
  import opened Primitives
  import opened BlockCodec
  import HeaderTree
  import HeaderLexing
  import opened FileLayout
  import opened MonolithicWriter
  import opened WrittenElements
  import opened WrittenHeader
  import opened BlockReader
  import MonolithicFile
  import opened ImageYields
  import opened WrittenImages

  // -------------------------------------------------- the blocks in the file

  function FileBytesOf(header: seq<byte>, blocks: seq<StoredBlock>): (file: seq<byte>)
    ensures |file| == PREAMBLE_LEN + |header| + |BlockBytes(blocks)|
  {
    Assembled(header, BlockBytes(blocks))
  }

  /** Where block `i` begins in the file. */
  function Position(header: seq<byte>, blocks: seq<StoredBlock>, i: nat): nat
    requires i <= |blocks|
  {
    PREAMBLE_LEN + |header| + Offset(blocks, i)
  }

  /** Each block's bytes stand at its offset in the data. */
  lemma {:induction false} BlockAtOffset(blocks: seq<StoredBlock>, i: nat)
    requires i < |blocks|
    ensures Offset(blocks, i) + |blocks[i].bytes| <= |BlockBytes(blocks)|
    ensures BlockBytes(blocks)[Offset(blocks, i)..Offset(blocks, i) + |blocks[i].bytes|] == blocks[i].bytes
  {
    hide Concat;
    StoredPartsPrefix(blocks, i);
    ConcatSlice(StoredParts(blocks), i);
  }

  /** Data that ends a file keeps its slices, shifted by where it starts. */
  lemma {:induction false} SliceOfTail(file: seq<byte>, data: seq<byte>, start: nat, at: nat, len: nat)
    requires start <= |file| && file[start..] == data && at + len <= |data|
    ensures start + at + len <= |file| && file[start + at..start + at + len] == data[at..at + len]
  {
    assert file[start..|file|] == data;
    SubSlice(file, start, |file|, at, at + len);
  }

  /** Each block's bytes stand at its position. */
  lemma {:induction false} BlockAtPosition(header: seq<byte>, blocks: seq<StoredBlock>, i: nat)
    requires |header| < U32_LIMIT && i < |blocks|
    ensures var file := FileBytesOf(header, blocks); var p := Position(header, blocks, i);
      p + |blocks[i].bytes| <= |file| && file[p..p + |blocks[i].bytes|] == blocks[i].bytes
  {
    ScanFindsHeader(header, BlockBytes(blocks));
    BlockAtOffset(blocks, i);
    var start := PREAMBLE_LEN + |header|;
    SliceOfTail(FileBytesOf(header, blocks), BlockBytes(blocks), start, Offset(blocks, i), |blocks[i].bytes|);
  }

  /** The blocks tile the file from the end of the header to its own end: no gap, no overlap, nothing after. */
  lemma {:induction false} BlocksTile(header: seq<byte>, blocks: seq<StoredBlock>)
    ensures Position(header, blocks, 0) == PREAMBLE_LEN + |header|
    ensures forall i :: 0 <= i < |blocks| ==>
      Position(header, blocks, i + 1) == Position(header, blocks, i) + |blocks[i].bytes|
    ensures Position(header, blocks, |blocks|) == |FileBytesOf(header, blocks)|
  {
    assert blocks[..0] == [] && blocks[..|blocks|] == blocks;
    forall i | 0 <= i < |blocks|
      ensures Position(header, blocks, i + 1) == Position(header, blocks, i) + |blocks[i].bytes|
    {
      OffsetStep(blocks, i);
    }
  }

  /** The reader slices out exactly the stored bytes of the block whose locator it is given. */
  lemma {:induction false} StoredBytesFetched(r: Reader, header: seq<byte>, blocks: seq<StoredBlock>, i: nat)
    requires |header| < U32_LIMIT && i < |blocks| && |FileBytesOf(header, blocks)| < U64_LIMIT
    requires r.source == FileBytesOf(header, blocks)
    requires r.layout == Layout(PREAMBLE_LEN, PREAMBLE_LEN + |header|, Monolithic)
    ensures Locatable(Attached(PREAMBLE_LEN + |header|), blocks)
    ensures StoredUnchecked(r, Located(LocationOf(Attached(PREAMBLE_LEN + |header|), blocks, i), blocks[i]))
            == Ok(blocks[i].bytes)
  {
    BlockAtPosition(header, blocks, i);
  }

  // -------------------------------------------------- the whole file

  /** What a writer was given and the header it settled on, fit to be read. */
  ghost predicate IsWritten(engine: Engine, frame: Frame, images: seq<PendingImage>, stored: StoredBlocks,
      header: seq<byte>)
  {
    Writable(engine, frame, images, stored) && MonolithicFile.IsHeader(frame, images, stored, header)
    && |header| < U32_LIMIT && |FileBytesOf(header, stored.blocks)| < U64_LIMIT
  }

  /**
    The whole-file round trip. Scanning a written file finds its header; lexing and parsing those bytes
    gives one element an image, in order; and through the file each yields the shape, the pixels, the
    profile and the thumbnail that image was given, whether or not checksums are verified. All this holds
    exactly if the header is within the parser's limits; otherwise it is refused.
   */
  lemma {:induction false} FileSurvives(r: Reader, lex: seq<byte> -> seq<HeaderTree.Event>, frame: Frame,
      images: seq<PendingImage>, stored: StoredBlocks, header: seq<byte>)
    requires HeaderLexing.Lexes(lex) && IsWritten(r.env.engine, frame, images, stored, header)
    requires r.source == FileBytesOf(header, stored.blocks) && Scan(r.source) == Ok(r.layout)
    ensures r.layout == Layout(PREAMBLE_LEN, PREAMBLE_LEN + |header|, Monolithic)
    ensures r.source[r.layout.start..r.layout.end] == HeaderBytes(frame, images, stored, Attached(r.layout.end))
    ensures SurvivesWithin(r, lex(r.source[r.layout.start..r.layout.end]), frame, images,
                           HeaderPiece(frame, images, stored, Attached(r.layout.end)))
  {
    var addressing := Attached(PREAMBLE_LEN + |header|);
    ScanFindsHeader(header, BlockBytes(stored.blocks));
    assert Fetchable(r, addressing, stored.blocks) by {
      BytesFetched(r, header, stored.blocks);
    }
    ImagesSurvive(r, lex, frame, images, stored, addressing);
  }

  lemma {:induction false} BytesFetched(r: Reader, header: seq<byte>, blocks: seq<StoredBlock>)
    requires |header| < U32_LIMIT && |FileBytesOf(header, blocks)| < U64_LIMIT
    requires r.source == FileBytesOf(header, blocks)
    requires r.layout == Layout(PREAMBLE_LEN, PREAMBLE_LEN + |header|, Monolithic)
    ensures Fetchable(r, Attached(PREAMBLE_LEN + |header|), blocks)
  {
    forall i | 0 <= i < |blocks|
      ensures StoredUnchecked(r, Located(LocationOf(Attached(PREAMBLE_LEN + |header|), blocks, i), blocks[i]))
              == Ok(blocks[i].bytes)
    {
      StoredBytesFetched(r, header, blocks, i);
    }
  }

  // -------------------------------------------------- writing and reading

  /** What scanning, lexing and parsing a file comes to: the images it was written for. */
  ghost predicate FileReads(file: FileBytes, lex: seq<byte> -> seq<HeaderTree.Event>, env: Environment, frame: Frame,
      images: seq<PendingImage>, stored: StoredBlocks)
  {
    Scan(file).Ok? && AllInRange(images, stored)
    && var layout := Scan(file).value;
       layout.start <= layout.end <= |file|
       && UniquelySurvives(Reader(file, layout, env), lex(file[layout.start..layout.end]), frame, images,
                           HeaderPiece(frame, images, stored, Attached(layout.end)))
  }

  lemma {:induction false} FileReadsBack(file: FileBytes, lex: seq<byte> -> seq<HeaderTree.Event>, env: Environment,
      frame: Frame, images: seq<PendingImage>, stored: StoredBlocks, header: seq<byte>)
    requires HeaderLexing.Lexes(lex) && IsWritten(env.engine, frame, images, stored, header)
    requires MonolithicFile.AcceptedTogether(images) && file == FileBytesOf(header, stored.blocks)
    ensures FileReads(file, lex, env, frame, images, stored)
  {
    hide HeaderBytes;
    hide HeaderPiece;
    hide HeaderLexing.Lexes;
    hide SurvivesWithin;
    hide UniquelySurvives;
    hide Writable;
    ScanFindsHeader(header, BlockBytes(stored.blocks));
    var r := Reader(file, Layout(PREAMBLE_LEN, PREAMBLE_LEN + |header|, Monolithic), env);
    FileSurvives(r, lex, frame, images, stored, header);
    IdsAreUnique(r, lex(file[r.layout.start..r.layout.end]), frame, images,
                 HeaderPiece(frame, images, stored, Attached(r.layout.end)));
  }

  /** What a writer makes of its images, when it makes a file of them. */
  ghost predicate IsOutcome(engine: Engine, frame: Frame, images: seq<PendingImage>, file: seq<byte>)
    requires PrepareAllowed(images)
  {
    PrepareAll(engine, images).Ok?
    && var stored := PrepareAll(engine, images).value;
       exists header ::
         MonolithicFile.IsHeader(frame, images, stored, header) && |header| < U32_LIMIT
         && file == Assembled(header, BlockBytes(stored.blocks))
  }

  lemma {:induction false} OutcomeReadsBack(file: FileBytes, lex: seq<byte> -> seq<HeaderTree.Event>, env: Environment,
      frame: Frame, images: seq<PendingImage>)
    requires HeaderLexing.Lexes(lex) && Lawful(env.engine) && ReadableTexts(frame, images)
    requires MonolithicFile.AcceptedTogether(images) && PrepareAllowed(images)
    requires IsOutcome(env.engine, frame, images, file)
    ensures FileReads(file, lex, env, frame, images, PrepareAll(env.engine, images).value)
  {
    hide MonolithicFile.IsHeader;
    hide MonolithicFile.AcceptedTogether;
    hide HeaderLexing.Lexes;
    hide FileReads;
    hide ReadableTexts;
    hide Lawful;
    hide PrepareAll;
    hide Assembled;
    hide BlockBytes;
    var stored := PrepareAll(env.engine, images).value;
    var header :| MonolithicFile.IsHeader(frame, images, stored, header) && |header| < U32_LIMIT
      && file == Assembled(header, BlockBytes(stored.blocks));
    FileReadsBack(file, lex, env, frame, images, stored, header);
  }

  /** Serialise a whole file: the only results are those that `OutcomeReadsBack` speaks of. */
  method WriteOutcome(w: MonolithicFile.Writer, engine: Engine) returns (r: Result<seq<byte>>)
    requires w.Valid()
    ensures PrepareAllowed(w.images) && (r.Ok? ==> IsOutcome(engine, w.frame, w.images, r.value))
  {
    AcceptedFit(w.images);
    hide MonolithicFile.IsHeader;
    hide MonolithicFile.IsAccepted;
    hide PrepareAll;
    hide Renderable;
    hide Assembled;
    hide BlockBytes;
    r := w.ToBytes(engine);
  }

  /** Serialise a whole file; what comes of scanning, lexing and parsing it is the images the writer was given. */
  method WriteFile(w: MonolithicFile.Writer, ghost lex: seq<byte> -> seq<HeaderTree.Event>, env: Environment)
      returns (r: Result<seq<byte>>)
    requires w.Valid() && HeaderLexing.Lexes(lex) && Lawful(env.engine) && ReadableTexts(w.frame, w.images)
    ensures PrepareAllowed(w.images)
    ensures r.Ok? && |r.value| < U64_LIMIT ==>
      PrepareAll(env.engine, w.images).Ok?
      && FileReads(r.value, lex, env, w.frame, w.images, PrepareAll(env.engine, w.images).value)
  {
    assert MonolithicFile.AcceptedTogether(w.images);
    AcceptedFit(w.images);
    assert forall file :: IsOutcome(env.engine, w.frame, w.images, file) ==> PrepareAll(env.engine, w.images).Ok?;
    hide *;
    r := WriteOutcome(w, env.engine);
    if r.Ok? && |r.value| < U64_LIMIT {
      OutcomeReadsBack(r.value, lex, env, w.frame, w.images);
    }
  }
}
