# Formal model of the XISF reader and writer

This project models the core of a library that reads and writes XISF, an astronomical image format, and
proves properties of it. A file is a 16-byte preamble, an XML header and a run of data blocks; the header
describes images and says where each one's blocks are. Alternatively the header is a file of its own and names
blocks by identifier in a separate `.xisb` blocks file. Blocks may be byte-shuffled, compressed, cut into
subblocks and checksummed. Images may carry an astrometric solution with a spline distortion model, and an RGB
working space.

The modules, from the bytes up:

| modules | what they model |
|---|---|
| `Primitives`, `Text`, `RealAlgebra` | little-endian fields, numerals and string operations; products of reals |
| `XmlText`, `Locations`, `BlockAttributes`, `GeometryAttribute`, `Literals`, `PropertyTypes` | the texts of the header and their readers |
| `AttributeGrammar`, `StatedBlocks` | exactly which attribute texts are accepted, and what an element's attributes say together |
| `Shuffle`, `PlanarSamples`, `BlockCodec` | rearranging and coding a block's bytes |
| `BlocksFile`, `ExternalBlocks`, `BlocksWriter` | the `.xisb` index: two walks and a writer |
| `HeaderTree`, `HeaderMachine`, `HeaderParser`, `HeaderDocument`, `DocumentContent`, `HeaderTrees` | the parser as a stack machine over XML events, references, and what documents mean |
| `HeaderText`, `HeaderLexing`, `LexerExists` | documents as text, what an XML lexer is trusted to make of them, and that one can |
| `FileLayout`, `BlockReader`, `TextBlocks` | finding the header in a file; fetching a block; blocks from a header's events to their data |
| `ImageText`, `ImageReader`, `TableReader` | what images, keywords and tables declare, the elements they are written as, and reading them |
| `ImageChecks`, `MonolithicWriter`, `HeaderLength`, `MonolithicFile` | accepting images, writing a file and settling its header's length |
| `WrittenElements`, `CorePieces`, `ReadImageText`, `WrittenTables`, `WrittenHeader`, `WrittenText`, `LexedHeader`, `ImageYields`, `WrittenImages`, `MonolithicRoundTrip`, `DistributedUnit` | what a reader gets back from what was written, in both forms |
| `Calendar` | the date arithmetic of the creation time |
| `SplineEval`, `SplinePacking`, `DistortionLoading`, `Residual` | the distortion model, over exact reals |
| `Colour` | working spaces and their matrices, over exact reals |

`dafny verify dfyconfig.toml` checks everything. Algorithms that the source runs as loops over mutable state are
methods with loop invariants, each equated with a function; the properties are lemmas about those functions.
Lemmas carry `{:induction false}` throughout: their proofs are written out. Integers are unbounded and the
source's widths are explicit (`byte`, `u64`, `i32`, powers of two); a machine word is taken to be 64 bits wide.
Floating point is modelled by exact reals, so rounding, infinities and NaN are not represented. Foreign code is
a parameter: compressors and hash functions (`BlockCodec.Engine`, whose contract is `BlockCodec.Lawful`:
decompression undoes compression, output is at most one byte over the size asked for, and inputs stay within
the expansion ratio), the XML lexer (whose contract is `HeaderLexing.Lexes`: a document printed after the XML
declaration comes back as its events, with each attribute normalised; `LexerExists.ThereIsALexer` shows that this
can be met), base64, path resolution, URL fetching, spline kernels, square root and hypotenuse. The creation
instant is a parameter too: the writer asks the clock at every render, and `Calendar.InstantLength` shows why that
cannot disturb the header's length.

Where the code does not do what is said of it, the model follows the code:

- The least 128-bit integer is in range for its type but its decimal spelling is refused
  (`crates/xisf-core/src/property.rs:657`); `Literals.DecimalReadsExactly` has it as the single exception.
- The writer asks of a shape only how many bytes of data it takes (`crates/xisf-core/src/writer.rs:360-370`), of
  bounds only that they are there for floating-point samples, and of an offset and an orientation nothing. So it
  accepts images that no reader takes: shapes without dimensions or with a zero in them, bounds that do not ascend,
  negative offsets and turns by other than right angles (`crates/xisf-core/src/image.rs:301-471`).
  `ImageReader.DeclarationReadsExactly` has the exact condition; `WrittenImages.UnreadableShapes` and
  `ImageReader.HalfTurnUnread` have such images.
- The writer accepts tables with two fields under one identifier, which a reader refuses
  (`crates/xisf-core/src/table.rs:73-80`), and it can be given a field whose type is a vector or matrix of truth
  values, whose name no reader takes. `WrittenTables.TableReadsExactly` has the exact condition and
  `WrittenTables.TwinFields` such a table.
- Of a cell with both an attribute and character data the writer writes the attribute alone
  (`crates/xisf-core/src/writer.rs:1008-1027`), while a reader would take the data first
  (`crates/xisf-core/src/table.rs:111-127`), and empty character data is read as none.
  `WrittenTables.CellTextExactly` has the exact condition and `WrittenTables.CellsLost` such cells.
- The writer has no limit on how many elements it writes and the parser refuses a header of more than a million
  (`crates/xisf-core/src/header.rs:207-210`), so an image with a long enough table is written and never read
  back, pixels included. `WrittenHeader.WrittenHeaderReads` has the exact condition and
  `WrittenImages.NeverReadBack` the images.
- A product of dimensions that overflows is refused even if a later dimension is zero
  (`MonolithicFile.SampleCountExactly`, `MonolithicFile.OverflowBeforeZero`).
- A locator in a distributed unit's header loses what attribute normalisation folds and what the locator's
  grammar trims, so the file name comes back exactly when it has no tab, line end or trailing white space
  (`Locations.DistributedLocatorExactly`, `DistributedUnit.NamesLost`).
- The blocks file's count field is 32 bits wide and the writer truncates the count silently
  (`crates/xisf-core/src/distributed.rs:382`): blocks past it cannot be fetched (`BlocksWriter.RoundTripExactly`).
- The on-disk reader skips placeholders and the in-memory one stops at them
  (`crates/xisf-core/src/reader.rs:592-598`), so they differ on files with repeated identifiers
  (`ExternalBlocks.ExternalPathsAgreeExactly`, `BlocksWriter.ShadowedBlock`).
- An empty tag is not counted against the nesting limit, so accepted headers may be one level deeper
  (`HeaderTrees.NestingIsExact`).
- A colour transform is said to be missing exactly when the luminance coefficients are
  (`crates/xisf-core/src/color.rs:79-82`), and it can also be missing when they are not: a coefficient is zero when
  white is on the line through two primaries (`Colour.TransformExactly`, `Colour.SpaceWithoutTransform`).
- A signed or prefixed numeral may carry a second plus sign, since the integer parser underneath accepts one;
  `Literals.LiteralExactly` has it as the one liberty taken.

## Model

| member | source | states |
|---|---|---|
| `HeaderLength.SettleHeader` | crates/xisf-core/src/writer.rs:444-455 | The positioning loop ends for every list of images and blocks, on a header whose own length is the one its positions assume; no shorter self-consistent length exists. It fails exactly when rendering does. |
| `HeaderLength.LengthIs` | crates/xisf-core/src/writer.rs:557-587 | A rendered header is fixed text plus the decimal width of 16 + assumed length + the sizes of the blocks before, once for each block. |
| `HeaderLength.LengthBelowCeiling` | crates/xisf-core/src/writer.rs:439-454 | A length exists that no iteration can pass, because decimal width grows slower than the number. |
| `HeaderLength.ClimbingNext` | crates/xisf-core/src/writer.rs:452-454 | Each turn of the loop keeps the assumption rising, below the ceiling, and at or below every self-consistent length. |
| `MonolithicWriter.SettlePositions` | crates/xisf-core/src/writer.rs:569-581 | Block i is positioned at the data start plus the sizes of all blocks before it, before any text is emitted. |
| `MonolithicWriter.Render` | crates/xisf-core/src/writer.rs:557-860 | Appending piece by piece produces the serialisation of one document: the root, an element an image in order, and what follows; or InvalidArgument exactly when some working space has no luminance coefficients. |
| `MonolithicWriter.AppendImages` | crates/xisf-core/src/writer.rs:602-772 | The loop over images appends each image's element and stops at the first degenerate working space. |
| `MonolithicWriter.PrepareBlocks` | crates/xisf-core/src/writer.rs:527-554 | The loop prepares pixels, profile and thumbnail of each image in order, and stops at the first failure. |
| `MonolithicWriter.PreparedIsPlaced` | crates/xisf-core/src/writer.rs:527-554 | Prepared blocks belong to the images in order: every owner index names the block prepared from its own image's data, and none is left over. |
| `MonolithicWriter.EmbeddedFlagExactly` | crates/xisf-core/src/writer.rs:1333-1354 | A profile of at least 128 bytes keeps every byte but one, and bit 0 of its big-endian flags is set; a shorter one is refused. |
| `MonolithicFile.Writer.constructor` | crates/xisf-core/src/writer.rs:259-262 | A new writer has no images. |
| `MonolithicFile.Writer.AddImage` | crates/xisf-core/src/writer.rs:324-434 | An image is added exactly when the identifier it is written with is new and a word, its UUID is canonical and of version 4, float samples have bounds, its data has the size its geometry and sample format call for, its thumbnail is allowed, its FITS names are legal and the tables it is written with are rectangular; otherwise nothing changes and the first fault's kind is returned. The invariant of all accepted images is kept. |
| `ImageChecks.CheckTable` | crates/xisf-core/src/writer.rs:938-971 | The nested loops over fields, rows and cells find the first fault of a table, which is Unsupported only for a cell in a data block of its own. |
| `ImageChecks.TablesAcceptedExactly` | crates/xisf-core/src/writer.rs:938-971 | Tables pass exactly when their identifiers are property identifiers and every row has one cell a field, none of them in a data block. |
| `ImageText.TableElements` | crates/xisf-core/src/writer.rs:973-1033 | A table is written as itself, its structure, and one element for each field, row and cell. |
| `ReadImageText.CharactersPrint` | crates/xisf-core/src/writer.rs:1385-1396 | A cell's text, taken as runs and a reference for each escaped character, prints as the escaped text. |
| `ReadImageText.TableIsCore` | crates/xisf-core/src/writer.rs:973-1033 | Every table whose cells hold no carriage return is one a lexer takes as it was written, all its elements in the format's namespace and none with a block or an identifier of its own. |
| `MonolithicFile.Writer.ToBytes` | crates/xisf-core/src/writer.rs:437-475 | The bytes are the assembled file around a self-consistent header of least length; or the error is the preparation's own, InvalidArgument for a degenerate working space, or Unsupported when the header is past the 32-bit length field. |
| `MonolithicFile.SampleCountExactly` | crates/xisf-core/src/image.rs:396-409 | For every shape, checked multiplication gives dimensions times channels, and fails exactly when some product of the first factors does not fit 64 bits, even if a later factor is zero. |
| `MonolithicFile.OverflowBeforeZero` | crates/xisf-core/src/image.rs:396-409 | Such a shape, refused with a zero dimension, and the same dimensions with the zero first, which are counted. |
| `MonolithicFile.SolidShapeCounted` | crates/xisf-core/src/image.rs:396-409 | For a shape without a zero that is exactly when the whole product does not fit. |
| `MonolithicFile.DataSizeExactly` | crates/xisf-core/src/image.rs:403-406 | The bytes a shape calls for are its dimensions, its channels and the size of a sample multiplied together, unless that overflows. |
| `MonolithicFile.ThumbnailExactly` | crates/xisf-core/src/writer.rs:373-420 | A thumbnail is allowed exactly when it has two dimensions, UInt8 or UInt16 samples, Gray or RGB channels, no bounds, and the data its shape calls for. |
| `ImageText.NamesSayBits` | crates/xisf-core/src/image.rs:34-58 | A sample format's size is what its name says, of two numbers for a complex one. |
| `ImageChecks.UuidExactly` | crates/xisf-core/src/writer.rs:1255-1284 | A UUID is accepted exactly when it is thirty-six characters with dashes at four places, a 4 after the second and digits everywhere else. |
| `ImageChecks.PropertyIdExactly` | crates/xisf-core/src/writer.rs:1047-1063 | A property identifier is accepted exactly when it is one or more words with colons between them. |
| `FileLayout.ScanFindsHeader` | crates/xisf-core/src/layout.rs:54-100 | Scanning an assembled file finds exactly its header range, whatever header and data hold; what follows is the data. |
| `FileLayout.ScanExactly` | crates/xisf-core/src/layout.rs:54-128 | Exactly which files are monolithic, and with which header: a signature, a length, four zero bytes, that many bytes of header, and data. Exactly which are header files: those that open as a document. |
| `MonolithicRoundTrip.BlockAtPosition` | crates/xisf-core/src/writer.rs:469-475 | Each block's bytes stand at the position its header names. |
| `MonolithicRoundTrip.BlocksTile` | crates/xisf-core/src/writer.rs:469-475 | Block ranges follow one another from the end of the header to the end of the file, with no gap, overlap or remainder. |
| `MonolithicRoundTrip.StoredBytesFetched` | crates/xisf-core/src/reader.rs:234-260 | Following a written attachment locator slices out exactly the stored bytes of its own block. |
| `MonolithicRoundTrip.FileSurvives` | crates/xisf-core/src/writer.rs:437-475 | End to end: scanning a written file finds its header; if that is within the parser's limits, lexing and parsing those very bytes gives an element an image in order, each with all that image was given: identifier and declaration, pixels, profile, thumbnail, keywords, working space and tables; if it is past them, the whole header is refused. |
| `MonolithicRoundTrip.WriteFile` | crates/xisf-core/src/writer.rs:437-475 | Serialising and then reading: whatever file a writer returns reads back as the images that were added to it, under identifiers no two of them share, or is refused whole for its header's size. |
| `ImageYields.ImageSurvives` | crates/xisf-core/src/writer.rs:599-860 | The element an image is written as is read as that image: its declaration, exactly if a reader takes it, its pixels, its own profile with the embedded flag set, its own thumbnail and that one's declaration, one keyword for each in order, its working space, its tables, everything else it was given, and all of it in the order of writing. |
| `WrittenText.NamedHere` | crates/xisf-core/src/writer.rs:639-770 | Under each of the five names of its own making the element has exactly the children the writer made for it, in order, and under any other name exactly those it was given. |
| `WrittenText.KeywordsSurvive` | crates/xisf-core/src/writer.rs:645-652 | One FITSKeyword child a keyword, in order, with its name, value and comment. |
| `WrittenText.SpaceSurvives` | crates/xisf-core/src/writer.rs:661-691 | One RGBWorkingSpace child exactly if there is a working space with luminance coefficients, with the attributes that go with those. |
| `WrittenText.TablesSurvive` | crates/xisf-core/src/writer.rs:767-769 | One Table child a table, in order, each of them read as its table exactly if that is readable. |
| `WrittenText.OrderSurvives` | crates/xisf-core/src/writer.rs:639-770 | The children come in the order of writing: keywords, what is given before the working space, that, what is given after it, profile, thumbnail, tables. |
| `ImageYields.HeldAsRead` | crates/xisf-core/src/header.rs:496-512 | What an image has once its header's attributes are normalised is that image with each of its texts normalised and nothing else changed. |
| `ImageReader.DeclarationReadsExactly` | crates/xisf-core/src/image.rs:339-394 | An image's declaration is read back exactly when its shape is readable, its bounds ascend, its offset is not negative and it is turned by right angles, and then every part of it is what was declared. |
| `ImageReader.OrientationReadsBackExactly` | crates/xisf-core/src/image.rs:301-335 | An orientation reads back exactly when it is by one of the four right angles. |
| `ImageReader.BoundsExactly` | crates/xisf-core/src/image.rs:449-471 | Bounds are a number, a colon and a greater number, with white space around either. |
| `ImageReader.HalfTurnUnread` | crates/xisf-core/src/image.rs:301-320 | An image given as turned by 45 degrees is written and never read. |
| `WrittenTables.TableReadsExactly` | crates/xisf-core/src/table.rs:141-216 | A written table is read back exactly when it has fields, all of types whose names are read, no two under one identifier, and a cell for each in every row; then every field, row and cell is there in order with what it was given. |
| `TableReader.ParseTable` | crates/xisf-core/src/table.rs:141-216 | Reading a table: its structure is its own or one referred to, its rows are as wide as that, and counts that are declared are kept. |
| `TableReader.ParseStructure` | crates/xisf-core/src/table.rs:58-83 | The loop over fields refuses a structure without fields or with two under one identifier. |
| `TableReader.ParseRows` | crates/xisf-core/src/table.rs:162-178 | The loop over rows takes the cells of each and refuses the first row of another width. |
| `TableReader.TakenIsSound` | crates/xisf-core/src/table.rs:141-216 | Every table that is read has fields, no two under one identifier, a cell for each in every row, and as many rows and columns as it declares. |
| `WrittenTables.CellTextExactly` | crates/xisf-core/src/table.rs:111-127 | What a written cell says is what it said exactly unless it has an attribute and other character data as well, or empty character data alone. |
| `WrittenTables.CellsLost` | crates/xisf-core/src/table.rs:111-127 | Two such cells: one is read for its attribute, and one as having no text. |
| `WrittenTables.TwinFields` | crates/xisf-core/src/table.rs:58-83 | A table with two fields under one identifier, which the writer accepts and no reader takes. |
| `PropertyTypes.TypeReadsBackExactly` | crates/xisf-core/src/property.rs:143-249 | A property type is read back from its name exactly when it is not a vector or matrix of truth values. |
| `WrittenImages.UnreadableShapes` | crates/xisf-core/src/image.rs:396-446 | Two shapes the writer accepts and a reader refuses: one without dimensions and one with a zero dimension. |
| `WrittenImages.HeaderLexed` | crates/xisf-core/src/header.rs:223-302 | A lexer that gives printed documents back gives a written header back as the same header with its attributes normalised, and of the same size. |
| `WrittenImages.ImagesSurvive` | crates/xisf-core/src/reader.rs:157-174 | For either way of addressing blocks, if every locator fetches its block then a header within the parser's limits yields every image in order, followed by what was to follow the images, under the root's own attributes; any other header is refused. |
| `WrittenImages.IdsAreUnique` | crates/xisf-core/src/writer.rs:324-335 | Since no two accepted images share an identifier and reading keeps it, no two image elements of a parsed header do. |
| `WrittenImages.TooManyElements` | crates/xisf-core/src/header.rs:403-409 | A header with an image whose tables have as many elements as the parser allows is past its limits, whatever else it holds. |
| `WrittenImages.NeverReadBack` | crates/xisf-core/src/writer.rs:938-971 | For every length there is an image, one pixel with a table that long, which the writer accepts and renders; from a million rows on its header is past the parser's limits. |
| `WrittenImages.BlocksWithinLimits` | crates/xisf-core/src/writer.rs:527-554 | A header within the limits names fewer blocks than the parser allows elements. |
| `WrittenElements.ElementPairsRead` | crates/xisf-core/src/writer.rs:901-912 | The compression, checksum and location attributes written for a block parse back to that block's reference. |
| `WrittenHeader.WrittenHeaderReads` | crates/xisf-core/src/header.rs:201-341 | A written header is accepted exactly when it is within the parser's limits, and then gives, for every image in order, the block references the writer meant, attached or distributed. |
| `LexedHeader.HeaderAsRead` | crates/xisf-core/src/header.rs:496-512 | Attribute normalisation changes nothing in a written header but the texts a caller gave and the blocks file's name: positions, sizes, geometries, compression and checksums come back as written. |
| `LexedHeader.HeaderPrintable` | crates/xisf-core/src/writer.rs:557-860 | Every written header is well formed for a lexer: distinct attribute names, no two runs of text adjacent, every element in the namespace it is meant to be in. |
| `LexerExists.PrintingIsUnambiguous` | crates/xisf-core/src/writer.rs:557-860 | No two well-formed documents print to the same bytes: the tags, the escapes and the encoding can all be told apart. |
| `LexerExists.ThereIsALexer` | crates/xisf-core/src/header.rs:223-302 | So a lexer of the kind the round trips ask for exists, and what they say of every such lexer is not empty. |
| `LexedHeader.OnlyNameEscapes` | crates/xisf-core/src/writer.rs:585-597 | The locator attribute of a distributed header escapes the file name and nothing else. |
| `WrittenHeader.StandardFrame` | crates/xisf-core/src/writer.rs:558-563 | With the root attributes the writer emits, only what follows the images can keep a header from being accepted. |
| `LexedHeader.StandardFrameLexes` | crates/xisf-core/src/writer.rs:558-563 | With those root attributes, only what follows the images can keep a header from being lexed, and they come back unchanged. |
| `BlockReader.PreparedBlockFetched` | crates/xisf-core/src/reader.rs:202-322 | A reference to a prepared block's stored bytes yields the data it was prepared from, with checksum verification on or off. |
| `BlockReader.AttachmentExactly` | crates/xisf-core/src/reader.rs:234-260 | An attached block is there exactly when it begins after the header and ends within the file, and is the bytes that stand there; the two ways of failing are told apart. |
| `TextBlocks.InlineBlockRead` | crates/xisf-core/src/reader.rs:262-271 | From a header's events to an inline block: wherever its element stands in a document that parses, that is an element of the header, and its block is the bytes its text spells, in hexadecimal digits of either case or as the foreign base64 decoder has it, with white space anywhere; compressed and checksummed blocks are the data they were prepared from. |
| `TextBlocks.EmbeddedBlockRead` | crates/xisf-core/src/header.rs:411-452 | The same for a block embedded in a Data child, in the encoding that states, with indentation around it and the compression and checksum of the child. |
| `TextBlocks.PiecesRead` | crates/xisf-core/src/header.rs:496-545 | From a header's events to a block cut into separately compressed pieces: an element that states compression and subblocks in any order yields the original data. |
| `TextBlocks.TextExactly` | crates/xisf-core/src/reader.rs:614-631 | Exactly what a block in text stores: what its text spells once white space is taken out; absent text spells nothing. |
| `TextBlocks.HexRefusedExactly` | crates/xisf-core/src/reader.rs:614-631 | Hexadecimal text is refused exactly when its digits are odd in number or not all digits, and no text is no bytes. |
| `TextBlocks.CompactExactly` | crates/xisf-core/src/reader.rs:615-615 | Taking white space out undoes putting it in, anywhere in a text. |
| `StatedBlocks.AttributesExactly` | crates/xisf-core/src/header.rs:470-555 | Exactly which attributes of an element are accepted and what block reference they make, in whatever order they come; subblocks come only with a compression. |
| `DocumentContent.ElementIsRead` | crates/xisf-core/src/header.rs:223-341 | Every element anywhere in a document that parses is an element of the header, and is the one the document stands for there. |
| `DocumentContent.FilledText` | crates/xisf-core/src/header.rs:392-402 | Character data and resolved references come together in order as an element's text, whatever stands between. |
| `BlockReader.MonolithicIsSelfContained` | crates/xisf-core/src/reader.rs:274-296 | What a block of a monolithic file yields never depends on other files or on a URL resolver. |
| `BlockReader.VerificationOnlyRefuses` | crates/xisf-core/src/reader.rs:202-221 | What verification lets through is what is read without it, with a matching digest; it changes nothing but mismatches. |
| `BlocksFile.ParseBlocksFile` | crates/xisf-core/src/distributed.rs:113-205 | The loop over nodes, with its seen set, limits and checks in order, computes the walk; it always ends. |
| `BlocksFile.PushElements` | crates/xisf-core/src/distributed.rs:183-196 | The inner loop appends the elements of one node in order. |
| `BlocksFile.ParseExact` | crates/xisf-core/src/distributed.rs:110-205 | Parsing succeeds exactly when signature and reserved bytes are right and the chain from 16 reaches 0 through fewer than MAX_NODES distinct, whole, zero-reserved nodes with at most len/40 elements in all; the result is their elements in chain order. |
| `BlocksFile.WalkIsBounded` | crates/xisf-core/src/distributed.rs:129-204 | On every file, faulty or not, the walk reports no more elements than the file has room for. |
| `BlocksFile.ReadBlockFrom` | crates/xisf-core/src/distributed.rs:215-316 | The seeking loop, reading node headers and elements through a cursor, computes the seeking walk. |
| `BlocksFile.ScanNode` | crates/xisf-core/src/distributed.rs:270-312 | The inner loop reads elements one at a time and stops at the first occupied one with the identifier. |
| `BlocksFile.Seeker.ReadExact` | crates/xisf-core/src/distributed.rs:215-250 | Reading fills a buffer from the cursor and advances it, or fails. |
| `BlocksFile.SeekRefinesWalk` | crates/xisf-core/src/distributed.rs:113-316 | On every file the seeking walk returns the first occupied element the in-memory walk meets (Truncated if it overruns the file), and ends as that walk ends when there is none. |
| `BlocksFile.SeekNoneExactly` | crates/xisf-core/src/distributed.rs:215-316 | The seeking walk reports no block exactly when the whole index parses and holds no occupied element with the identifier. |
| `BlocksFile.FirstOccupiedIs` | crates/xisf-core/src/distributed.rs:94-103 | The element found is the first occupied one with the identifier. |
| `ExternalBlocks.ExternalPathsAgreeExactly` | crates/xisf-core/src/reader.rs:521-611 | The on-disk and in-memory ways of taking a block out of a file agree exactly when no placeholder shadows the block, or, in a file whose index is faulty, when both report that fault. |
| `ExternalBlocks.UniqueNeverShadowed` | crates/xisf-core/src/reader.rs:571-611 | With unique identifiers nothing is shadowed, so the two ways always agree. |
| `ExternalBlocks.WholeFileExactly` | crates/xisf-core/src/reader.rs:521-580 | By either way of reading, a file without the signature is its own block and has no others, and one with it has only those it names. |
| `ExternalBlocks.ExtractedExactly` | crates/xisf-core/src/reader.rs:571-611 | A block is taken out of an index in memory exactly when that parses and its first element with the identifier is occupied and lies within the file. |
| `BlocksWriter.PlaceBlocks` | crates/xisf-core/src/distributed.rs:340-372 | The first loop gives each block its element, refusing a repeated identifier or an empty block. |
| `BlocksWriter.WriteBlocksFile` | crates/xisf-core/src/distributed.rs:340-394 | The file is written exactly when identifiers are distinct and no block is empty; otherwise InvalidArgument. |
| `BlocksWriter.ElementRoundTrip` | crates/xisf-core/src/distributed.rs:64-84 | An index element parses back from the forty bytes it is written as. |
| `BlocksWriter.OneNodeParses` | crates/xisf-core/src/distributed.rs:113-205 | A file with one node parses to its elements, up to what the 32-bit count field can say. |
| `BlocksWriter.WrittenIndexParses` | crates/xisf-core/src/distributed.rs:340-394 | Parsing a written file gives the blocks' own identifiers, positions, lengths and uncompressed lengths in order. |
| `BlocksWriter.WrittenBlockSlices` | crates/xisf-core/src/distributed.rs:374-394 | Every indexed slice of a written file is its block. |
| `BlocksWriter.WrittenBlockFetched` | crates/xisf-core/src/distributed.rs:340-394 | The identifier of a written block fetches that block by either way of reading, as long as the count field reached it. |
| `BlocksWriter.RoundTripExactly` | crates/xisf-core/src/distributed.rs:355-394 | Every block of a written file can be fetched exactly when there are fewer than 2^32 of them. |
| `BlocksWriter.TooManyBlocks` | crates/xisf-core/src/distributed.rs:382-382 | Files of 2^32 and more blocks can be written, so there are files that fail: for every such number up to 2^58 one is given, and some block of it cannot be fetched. |
| `BlocksWriter.ShadowedBlock` | crates/xisf-core/src/reader.rs:521-611 | A concrete file, a placeholder before an occupied element with the same identifier, on which the two ways of reading disagree. |
| `DistributedUnit.ToDistributed` | crates/xisf-core/src/writer.rs:487-520 | A unit is written exactly when the name is a plain file name, preparation and rendering succeed and no block is empty; header and blocks file then agree on the name and on every identifier. |
| `DistributedUnit.IndexedIsWritable` | crates/xisf-core/src/writer.rs:497-512 | Block identifiers never repeat and the payload is the blocks' bytes in order. |
| `DistributedUnit.UnitBlockFetched` | crates/xisf-core/src/writer.rs:592-597 | The locator of block i fetches that block out of the blocks file while the 32-bit count reached it, and is NotFound after. |
| `DistributedUnit.UnitSurvives` | crates/xisf-core/src/writer.rs:487-520 | End to end for the distributed form: the header file is scanned whole; if it is within the parser's limits it is lexed and parsed, and through the blocks file that its locators name every image yields what it was given, however many blocks there are; if it is past them it is refused. |
| `DistributedUnit.WriteUnit` | crates/xisf-core/src/writer.rs:487-520 | Serialising and then reading: whatever unit a writer returns reads back as the images that were added to it, wherever the file its locators name is its blocks file. |
| `DistributedUnit.NamedFileExactly` | crates/xisf-core/src/writer.rs:585-597 | The file that a unit's locators name is the blocks file exactly when its name has no tab, line end or trailing white space. |
| `DistributedUnit.NamesLost` | crates/xisf-core/src/writer.rs:585-597 | Two names that are lost: one ends in a space and one has a tab in it. |
| `Locations.AttachmentReadsBack` | crates/xisf-core/src/block.rs:74-126 | An attachment locator parses to its own position and size, for all numbers that fit 64 bits and no others. |
| `Locations.LocationExactly` | crates/xisf-core/src/block.rs:74-165 | Exactly which texts are locators and what each says, for all five kinds. |
| `Locations.BlockIdReadsBack` | crates/xisf-core/src/block.rs:451-461 | A hexadecimal block identifier parses to itself. |
| `Locations.DistributedLocatorExactly` | crates/xisf-core/src/writer.rs:592-597 | A distributed locator parses to the file name and identifier it was written with exactly when the name has no tab, line end or trailing white space. |
| `BlockAttributes.CompressionReadsBackExactly` | crates/xisf-core/src/writer.rs:1358-1364 | A compression attribute parses to the value printed exactly when the codec's name can be told from what surrounds it. |
| `AttributeGrammar.CompressionExactly` | crates/xisf-core/src/block.rs:306-365 | Exactly which texts are compression attributes, and which: a codec by its name, a size, and an item size exactly if the name is marked as shuffled. |
| `AttributeGrammar.SubblocksExactly` | crates/xisf-core/src/block.rs:284-297 | Exactly which texts are subblocks, and which: pairs of numbers in order, compressed size first, with white space around any number. |
| `AttributeGrammar.SubblocksReadBack` | crates/xisf-core/src/block.rs:284-297 | Subblocks spelled c1,u1:...:cN,uN are read as those pairs in that order. |
| `AttributeGrammar.ChecksumExactly` | crates/xisf-core/src/block.rs:427-446 | Exactly which texts are checksums, and which: a digest's name in one of its spellings and as many hexadecimal digits as its bits call for. |
| `AttributeGrammar.HexExactly` | crates/xisf-core/src/block.rs:469-495 | A text decodes to some bytes exactly when it spells them in digits of either case. |
| `AttributeGrammar.BlockIdExactly` | crates/xisf-core/src/block.rs:451-461 | Exactly which texts are block identifiers: decimal, or hexadecimal after 0x. |
| `AttributeGrammar.GeometryExactly` | crates/xisf-core/src/image.rs:421-446 | Exactly which texts are geometries, and which: numbers, none of them zero, the last the channels. |
| `Text.ParseU64Exactly` | crates/xisf-core/src/block.rs:497-505 | Exactly which texts are 64-bit numbers: decimal, perhaps with a plus sign and leading zeros. |
| `Text.TrimExactly` | crates/xisf-core/src/block.rs:284-297 | Trimming takes the white space off both ends and nothing else. |
| `BlockAttributes.ChecksumReadsBackExactly` | crates/xisf-core/src/block.rs:427-446 | A checksum attribute parses to the value printed exactly when the digest has its algorithm's length. |
| `BlockAttributes.HexReadsBack` | crates/xisf-core/src/block.rs:469-495 | Decoding lower-case hex gives the bytes back. |
| `BlockAttributes.HexPrintsBack` | crates/xisf-core/src/block.rs:469-495 | Whatever text decodes is, up to case, what its bytes print as. |
| `GeometryAttribute.ParseGeometry` | crates/xisf-core/src/image.rs:421-446 | The pushes and the final pop compute dimensions and channels, with every refusal. |
| `GeometryAttribute.GeometryReadsBackExactly` | crates/xisf-core/src/image.rs:421-446 | A geometry attribute parses to the numbers printed exactly when there is a dimension and no zero among them. |
| `XmlText.EscapeAttr` | crates/xisf-core/src/writer.rs:1368-1382 | The loop escapes all five characters. |
| `XmlText.EscapeText` | crates/xisf-core/src/writer.rs:1385-1396 | The loop escapes three characters and leaves quotes. |
| `XmlText.TextSurvives` | crates/xisf-core/src/header.rs:356-381 | Escaped character data reads back as itself, whatever it holds. |
| `XmlText.EntityExactly` | crates/xisf-core/src/header.rs:356-381 | Exactly which references have a meaning, and which: five by name, and any character but U+0000 by its number in decimal or hexadecimal. |
| `XmlText.CharacterReferenceReads` | crates/xisf-core/src/header.rs:356-381 | Every character but U+0000 is what its number refers to, in both bases. |
| `XmlText.FoldedIsTwoPasses` | crates/xisf-core/src/header.rs:496-512 | Normalising an attribute is taking each line end for a line feed and then each tab and line feed for a space. |
| `XmlText.AttributeSurvivesExactly` | crates/xisf-core/src/writer.rs:1368-1382 | An escaped attribute reads back with tabs and line ends folded to spaces, so as itself exactly when it has none. |
| `XmlText.EscapedIsQuotable` | crates/xisf-core/src/writer.rs:1368-1382 | No escaped attribute can close its quotes or open a tag. |
| `Shuffle.ShuffleBytes` | crates/xisf-core/src/codec.rs:241-256 | The nested loops fill the array with the shuffled bytes, remainder in place. |
| `Shuffle.UnshuffleBytes` | crates/xisf-core/src/codec.rs:221-236 | The nested loops fill the array with the unshuffled bytes. |
| `Shuffle.ShuffledAt` | crates/xisf-core/src/codec.rs:241-256 | Byte b of item i goes to b * count + i. |
| `Shuffle.TailStays` | crates/xisf-core/src/codec.rs:221-256 | The trailing partial item stays where it is, in shuffling and in unshuffling. |
| `Shuffle.ShuffleInverts` | crates/xisf-core/src/codec.rs:221-256 | Shuffling and unshuffling undo each other in both orders for every byte string and item size. |
| `Shuffle.ShuffleIsPermutation` | crates/xisf-core/src/codec.rs:221-256 | Shuffling and unshuffling are permutations. |
| `PlanarSamples.ReadPlanar` | crates/xisf/src/lib.rs:342-364 | Channel by channel, the loop makes the planar order, which is shuffling with the channels as item size. |
| `PlanarSamples.PlanarOrder` | crates/xisf/src/lib.rs:354-363 | Sample p of channel c stands at c * pixels + p, and nothing is lost. |
| `BlockCodec.SumSubblocks` | crates/xisf-core/src/codec.rs:136-158 | Totals are summed with checks for 64-bit overflow. |
| `BlockCodec.DecompressSubblocks` | crates/xisf-core/src/codec.rs:130-180 | Every cut is in bounds because the totals were checked first, and each piece must give its declared size. |
| `BlockCodec.DecodeBlock` | crates/xisf-core/src/codec.rs:80-125 | Ceiling, then one stream or the subblocks, then the size check, then unshuffling once over the whole. |
| `BlockCodec.PiecesDecode` | crates/xisf-core/src/codec.rs:130-180 | Pieces compressed separately and laid end to end decompress to their concatenation, within the ratio ceiling. |
| `BlockCodec.AnySplitDecodes` | crates/xisf-core/src/codec.rs:80-180 | However the shuffled data is cut into separately compressed pieces, decoding recovers the original. |
| `BlockCodec.DecodesExactly` | crates/xisf-core/src/codec.rs:80-180 | Exactly which stored blocks decode and to what: the declared size is plausible, one stream or pieces that account for every byte each decompress to their declared size, and the concatenation is unshuffled as a whole. |
| `BlockCodec.PreparedReadsBack` | crates/xisf-core/src/writer.rs:1129-1198 | Decoding undoes preparation; a prepared block is never larger than its data and carries the checksum of its stored bytes. |
| `BlockCodec.PreparedExactly` | crates/xisf-core/src/writer.rs:1129-1198 | A block is stored compressed exactly when that was asked for and is smaller; preparing fails exactly when the codec cannot take the data or fails on it. |
| `BlockCodec.PlausibleExactly` | crates/xisf-core/src/codec.rs:80-100 | A size is believed exactly when it is at most 1024 or at most the stored size times the codec's greatest expansion. |
| `BlockCodec.RequestedExactly` | crates/xisf-core/src/writer.rs:1129-1230 | A block is compressed under the name of the codec asked for, up to the size that codec takes, and shuffled exactly if items of more than one byte were asked for. |
| `HeaderTree.ReadElement` | crates/xisf-core/src/header.rs:470-555 | The attribute loop, with its budget, computes the element of a tag. |
| `HeaderTree.ElementFromIs` | crates/xisf-core/src/header.rs:470-555 | A tag is accepted exactly when it is well formed by itself and the budget covers its attributes. |
| `HeaderTree.LocalNameExactly` | crates/xisf-core/src/header.rs:475-482 | What counts of a name is what follows its last colon. |
| `HeaderParser.ForeignIsInert` | crates/xisf-core/src/header.rs:66-94 | An element of another namespace is taken for none of the format's: it lends no data, is found under no name and has no identifier that counts. |
| `HeaderMachine.StepSound` | crates/xisf-core/src/header.rs:235-302 | Every accepted event keeps the stack, element and attribute limits and the promotion rule. |
| `HeaderMachine.RunSound` | crates/xisf-core/src/header.rs:235-302 | So does every accepted run of events, from any sound state. |
| `HeaderMachine.AdoptPromotes` | crates/xisf-core/src/header.rs:411-468 | Attaching a finished child keeps the rule that own block attributes come first, then those of the first Data child. |
| `HeaderParser.Parser.FinishElement` | crates/xisf-core/src/header.rs:411-468 | The in-place update of the parent, root or nothing equals the machine's step. |
| `HeaderParser.Parser.PushCharacters` | crates/xisf-core/src/header.rs:392-402 | Text is appended to the innermost open element in place. |
| `HeaderParser.Parser.Handle` | crates/xisf-core/src/header.rs:235-302 | One event handled in place equals one step of the machine, faults included. |
| `HeaderParser.ParseHeader` | crates/xisf-core/src/header.rs:223-341 | The loop over events with its closing checks computes parsing. |
| `HeaderParser.AcceptedHeadersAreBounded` | crates/xisf-core/src/header.rs:201-221 | Every accepted header has at most MAX_ELEMENTS elements, nesting at most MAX_DEPTH + 1, distinct identifiers, and the promotion rule at every element. |
| `HeaderTrees.NestingIsExact` | crates/xisf-core/src/header.rs:243-260 | A chain of nested elements is accepted exactly up to one level beyond the open-tag limit. |
| `HeaderDocument.DocumentParsesExactly` | crates/xisf-core/src/header.rs:223-341 | Exactly which documents parse, and the tree the header then is: the one the document stands for by recursion. |
| `HeaderDocument.ParsesExactly` | crates/xisf-core/src/header.rs:223-341 | Exactly which event streams parse: those that spell a document within the limits whose first element is an acceptable root. Nothing unbalanced or faulty is ever accepted. |
| `HeaderTrees.TreeReadsBack` | crates/xisf-core/src/header.rs:392-468 | A written tree is read back as that tree with its Data children's text promoted. |
| `HeaderTrees.DocumentReadsBack` | crates/xisf-core/src/header.rs:223-341 | Parsing inverts serialisation for every tree within the limits, and exactly for trees without Data. |
| `HeaderParser.Descendants` | crates/xisf-core/src/header.rs:101-111 | The worklist ends and visits the subtree in recursive preorder. |
| `HeaderParser.CheckUids` | crates/xisf-core/src/header.rs:317-329 | The loop over descendants accepts exactly when no two core elements share an identifier. |
| `HeaderParser.Associated` | crates/xisf-core/src/header.rs:177-189 | The named children, then the matching target of each Reference in order. |
| `HeaderParser.UidNamesOnePlace` | crates/xisf-core/src/header.rs:161-166 | After a successful parse an identifier names at most one core element, and lookup returns it. |
| `HeaderParser.ReferenceResolves` | crates/xisf-core/src/header.rs:177-189 | A reference adds exactly the element it names if that has the wanted kind, and nothing otherwise. |
| `Calendar.YearOfEraExact` | crates/xisf-core/src/writer.rs:886-898 | The year-of-era quotient is the year whose days contain the day, for every day of an era. |
| `Calendar.CivilSteps` | crates/xisf-core/src/writer.rs:886-898 | For every day, before or after the epoch, the closed form gives a valid date and the next day's is its calendar successor. |
| `Calendar.CivilIsCounted` | crates/xisf-core/src/writer.rs:886-898 | From 1970-01-01 on, the closed form equals counting day by day. |
| `Calendar.DatesIncrease` | crates/xisf-core/src/writer.rs:886-898 | Later days have later dates. |
| `Calendar.PaddedIsFixed` | crates/xisf-core/src/writer.rs:874-880 | Zero padding gives exactly the last digits while the number fits its width. |
| `Calendar.InstantsSortExactlyBelow` | crates/xisf-core/src/writer.rs:869-881 | Formatted instants sort as text in time order exactly below the year 10000. |
| `Calendar.InstantLength` | crates/xisf-core/src/writer.rs:869-881 | Every instant before the year 10000 takes twenty characters, so rendering again cannot change a header's length. |
| `Calendar.InstantIs` | crates/xisf-core/src/writer.rs:869-881 | An instant's text is its date and the hours, minutes and seconds it is into its day, in that order and in two digits each. |
| `Calendar.PublishedInstant` | crates/xisf-core/src/writer.rs:1612-1627 | The format's own example of an instant. |
| `Literals.NumeralReads` | crates/xisf-core/src/property.rs:576-593 | Every numeral, in any of the four bases, either case, with leading zeros or a sign, is read for what it says up to 128 bits. |
| `Literals.LiteralExactly` | crates/xisf-core/src/property.rs:576-593 | Exactly which texts are read as literals, and as what: numerals below 2^128 with white space around them, and those with one further plus sign before the digits. |
| `Literals.TruthExactly` | crates/xisf-core/src/property.rs:629-638 | Exactly which texts are truth values: each word in three spellings, and a digit. |
| `Literals.SignedExactly` | crates/xisf-core/src/property.rs:651-681 | What each signed width makes of a literal: decimal range, minus sign, two's complement. |
| `Literals.DecimalReadsExactly` | crates/xisf-core/src/property.rs:651-691 | A decimal numeral reads as its number exactly when in range, and not the least 128-bit one. |
| `Literals.RadixLiteralReads` | crates/xisf-core/src/property.rs:651-691 | A non-negative radix literal below 2^w reads as the value its bits denote, and larger ones not at all. |
| `Literals.TwosComplementExactly` | crates/xisf-core/src/property.rs:660-681 | That value is the one in range congruent to the literal modulo 2^w. |
| `Literals.ValuesInRange` | crates/xisf-core/src/property.rs:625-693 | Whatever the text, a declared type yields only values in its range. |
| `Literals.LeastOfTheWidest` | crates/xisf-core/src/property.rs:656-659 | The least 128-bit number is refused in decimal although it is in range; the next is read. |
| `Literals.SerializedReadsBack` | crates/xisf-core/src/writer.rs:1299-1318 | Every Boolean or integer scalar the writer spells reads back as itself under its declared type. |
| `Literals.PropertySurvives` | crates/xisf-core/src/writer.rs:1299-1318 | And does so through escaping and reading the attribute. |
| `Literals.ExampleReads` | crates/xisf-core/src/property.rs:534-540 | The format's own example, 0x80E950AB, under three types. |
| `SplinePacking.AllLoadExactly` | crates/xisf-core/src/astrometry/load.rs:263-310 | Every term loads exactly when offsets ascend from zero or later within the nodes and the other arrays reach far enough. |
| `SplinePacking.LoadedTermsTile` | crates/xisf-core/src/astrometry/load.rs:263-310 | The terms' nodes and coefficients are contiguous runs without gap or overlap, ending at nodes.len() and nodes.len() + count * Q, and each term passes the length check. |
| `SplinePacking.PackedTermReadsBack` | crates/xisf-core/src/astrometry/load.rs:263-310 | Cutting term i out of packed arrays gives the i-th spline packed. |
| `DistortionLoading.LocalTerms` | crates/xisf-core/src/astrometry/load.rs:194-249 | The loop that cuts out the terms, refusing at the first bad radius or slice. |
| `DistortionLoading.LocalTermsLoadExactly` | crates/xisf-core/src/astrometry/load.rs:194-249 | Local terms load exactly when their arrays are there, their radii are positive and both packings divide. |
| `DistortionLoading.LocalTermsChecked` | crates/xisf-core/src/astrometry/load.rs:194-249 | Every loaded Local term passes the length check. |
| `DistortionLoading.PackedTermsLoad` | crates/xisf-core/src/astrometry/load.rs:194-249 | Loading inverts packing for any list of terms, the second component sharing the first one's packing or not. |
| `DistortionLoading.SingleTermExactly` | crates/xisf-core/src/astrometry/load.rs:129-191 | For any properties, a Global or Fallback term loads, and as which splines, exactly when both components are described, the second perhaps by its coefficients alone, and both have the length their order calls for. |
| `SplineEval.Monomials` | crates/xisf-core/src/astrometry/spline.rs:49-62 | The nested loops emit m(m + 1)/2 values with xi^(d-k) * eta^k at index d(d + 1)/2 + k. |
| `SplineEval.MonomialAt` | crates/xisf-core/src/astrometry/spline.rs:56-61 | Every index is that of one monomial, and of one only. |
| `SplineEval.TriangleIs` | crates/xisf-core/src/astrometry/spline.rs:65-71 | The closed form counts the monomials. |
| `SplineEval.Eval` | crates/xisf-core/src/astrometry/spline.rs:99-129 | The accumulating loops compute the radial sum plus the polynomial sum, with both zips' truncation. |
| `SplineEval.EvaluatedIsSum` | crates/xisf-core/src/astrometry/spline.rs:99-129 | Under the length check evaluation is every coefficient against its own feature. |
| `SplineEval.EveryCoefficientCounts` | crates/xisf-core/src/astrometry/spline.rs:99-129 | Changing any one coefficient changes the value by that much of its own feature: none is dropped or misaligned. |
| `SplineEval.FeatureIs` | crates/xisf-core/src/astrometry/spline.rs:99-129 | Coefficient number n + d(d + 1)/2 + k multiplies (r0 (px - x0))^(d - k) (r0 (py - y0))^k. |
| `SplineEval.NodeFeatureIs` | crates/xisf-core/src/astrometry/spline.rs:99-115 | The coefficient of a node multiplies the kernel at the distance of the scaled point from that node. |
| `SplineEval.PowAdds` | crates/xisf-core/src/astrometry/spline.rs:56-61 | Powers are products of as many factors as their exponents say. |
| `SplineEval.ShiftInvariant` | crates/xisf-core/src/astrometry/spline.rs:107-109 | Moving a point and the origin of a spline's coordinates together changes nothing. |
| `SplineEval.EvaluatedFits` | crates/xisf-core/src/astrometry/spline.rs:112-127 | Coefficients too few count as zero and those left over not at all. |
| `SplineEval.SingleCoefficient` | crates/xisf-core/src/astrometry/spline.rs:99-129 | A spline with one coefficient is that coefficient times its feature. |
| `Residual.Evaluate` | crates/xisf-core/src/astrometry/eval.rs:47-104 | The loop with its running sums and nearest term computes the field. |
| `Residual.FieldIsMean` | crates/xisf-core/src/astrometry/eval.rs:47-95 | Where there is weight, each component of the field is that component's splines in the proportion of the weights: one for Global, the curve at the distance in radii for Local, the curve at the total of those in thresholds for Fallback. |
| `Residual.GlobalAlone` | crates/xisf-core/src/astrometry/eval.rs:52-58 | A Global term alone is the field, its x spline the first component and its y spline the second. |
| `Residual.ComponentsBetween` | crates/xisf-core/src/astrometry/eval.rs:47-95 | Each component of the field lies between the least and the greatest value of its own component's splines that have weight. |
| `Residual.WendlandIs` | crates/xisf-core/src/astrometry/spline.rs:33-40 | The weight curve as a polynomial, 1 - 10t^2 + 20t^3 - 15t^4 + 4t^5 inside and zero outside. |
| `Residual.WendlandFalls` | crates/xisf-core/src/astrometry/spline.rs:33-40 | The nearer a point the greater the weight, all the way to the edge. |
| `Residual.WendlandRange` | crates/xisf-core/src/astrometry/spline.rs:33-40 | The weight runs from one at the centre to zero at the edge and is positive exactly inside. |
| `Residual.WeightExactly` | crates/xisf-core/src/astrometry/eval.rs:47-104 | There is weight at a point exactly when there is a Global or Fallback term or the point is inside a support disc. |
| `Residual.FieldIsConvex` | crates/xisf-core/src/astrometry/eval.rs:93-95 | Where there is weight the field lies in every half-plane that holds the values of all terms with weight. |
| `Residual.FallbackSilent` | crates/xisf-core/src/astrometry/eval.rs:80-91 | Once Local coverage reaches the threshold the Fallback term has no effect. |
| `Residual.FieldWithoutWeight` | crates/xisf-core/src/astrometry/eval.rs:97-104 | Without weight the field is the two splines of the first Local term with the smallest reach, or zero. |
| `Residual.NearestIsFirstSmallest` | crates/xisf-core/src/astrometry/eval.rs:66-69 | The term remembered is the first with the smallest reach. |
| `Colour.Apply` | crates/xisf-core/src/color.rs:201-207 | The loop multiplies a matrix and a vector. |
| `Colour.Invert` | crates/xisf-core/src/color.rs:209-230 | The nested loops fill in the cofactor inverse, unless the determinant is below the threshold. |
| `Colour.InverseIsTwoSided` | crates/xisf-core/src/color.rs:209-230 | The cofactor inverse is a two-sided inverse. |
| `Colour.DeriveLuminance` | crates/xisf-core/src/image.rs:626-659 | The column loops and Cramer's rule, with both refusals. |
| `Colour.CramersRule` | crates/xisf-core/src/image.rs:650-658 | Cramer's rule gives what the inverse of the primaries makes of the white point. |
| `Colour.LuminanceExactly` | crates/xisf-core/src/image.rs:612-659 | The derived luminance coefficients are the only ones with which white goes to the D50 white point. |
| `Colour.NewTransform` | crates/xisf-core/src/color.rs:83-98 | The loop fills the matrix column by column and inverts it. |
| `Colour.PrimaryKeepsChromaticity` | crates/xisf-core/src/color.rs:83-95 | The matrix sends each primary to the colour with that primary's luminance coefficient and chromaticity. |
| `Colour.TransformExactly` | crates/xisf-core/src/color.rs:79-98 | A transform exists exactly when no primary has a zero y and the luminance coefficients times the determinant of the primaries reach the threshold. |
| `Colour.SpaceWithoutTransform` | crates/xisf-core/src/color.rs:79-82 | A working space whose luminance coefficients can be derived and which has no transform. |
| `Colour.TransformInverts` | crates/xisf-core/src/color.rs:83-98 | When both exist, white goes to D50 and back, and every colour survives the way to XYZ and back. |

## Left out

- Compressors, hash functions, base64 and the XML lexer are foreign code. The parser's model starts at events; of the lexer the end-to-end results assume only `HeaderLexing.Lexes`, which says nothing about text the writer would not print.
- A carriage return in character data, which the writer emits raw (`crates/xisf-core/src/writer.rs:1385-1396`): `HeaderLexing.Printable` excludes it, because a lexer may fold it, and `ReadImageText.IsLexableTable` asks the text of table cells to have none. Pixels, profiles and thumbnails do not depend on it.
- Opening and mapping files, canonical paths, symbolic links and path policy: the resolver is a parameter that returns bytes.
- `projection.rs`, the spherical rotation, sRGB curves and L*a*b* companding: powers and transcendental functions.
- Floating-point rounding, infinities and NaN, including the finiteness checks that guard against them.
- The radial kernels' own formulas: a kernel is any function of distance, order and shape parameter.
- Which properties hold a distortion term's arrays, and pairing the numbers of a vector.
- Overflow of machine words on sizes no memory could hold; sizes are required to fit 64 bits where the source assumes it.
- Resolution, display function, colour filter array and metadata elements appear as given XML, and a working space's attributes as a function of the luminance coefficients derived for it. `WrittenImages.ReadableTexts` asks them to be well formed and not to look like image elements, block references, identifiers or elements of the writer's own making.
- Bounds and offsets are given as the text they are written as, since numbers are formatted elsewhere, and read through any parser of numbers; image types are given by name.
- Image types and colour filter letters as closed sets, and builder methods.
- The parsers of resolution, display function, colour filter array and working space: shape checks of single attributes.
- Of a table, the identifier of a structure of its own, and the block reference of a cell beyond whether it has one.
- Floating-point and complex scalar literals, whose reading is the standard library's.
- The C interface, the allocator header and the command-line tool.
- Error message texts; only the kind is kept.
- BlockCodec.DecodeBlock: does not model the cap on preallocation, which affects memory and not results.
- SplineEval.Eval: reuses no scratch buffer; the source's is cleared before each use.
