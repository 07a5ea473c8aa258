/** Blocks whose bytes are in the header itself, and blocks cut into pieces, from the header's events to their data. */
module TextBlocks {
  import opened Primitives
  import opened Text
  import opened Locations
  import opened BlockAttributes
  import AttributeGrammar
  import opened BlockCodec
  import opened HeaderTree
  import opened HeaderMachine
  import opened HeaderParser
  import opened HeaderDocument
  import opened DocumentContent
  import opened StatedBlocks
  import opened BlockReader

  // -------------------------------------------------- white space in encoded text

  /** A text with one of `gaps` before each of its characters, and the last after them. */
  function WithGaps(core: string, gaps: seq<string>): string
    requires |gaps| == |core| + 1
  {
    if core == "" then gaps[0] else gaps[0] + ([core[0]] + WithGaps(core[1..], gaps[1..]))
  }

  predicate HasNoWhite(text: string) { forall c <- text :: !IsWhiteSpace(c) }

  ghost predicate AllGaps(gaps: seq<string>) { forall i :: 0 <= i < |gaps| ==> AllWhite(gaps[i]) }

  /** A text is another one spread out by white space. */
  ghost predicate IsSpread(text: string, core: string)
  {
    HasNoWhite(core) && exists gaps :: |gaps| == |core| + 1 && AllGaps(gaps) && text == WithGaps(core, gaps)
  }

  lemma {:induction false} CompactConcat(a: string, b: string)
    ensures Compact(a + b) == Compact(a) + Compact(b)
  {
    if a == "" {
      assert a + b == b;
    } else {
      assert (a + b)[1..] == a[1..] + b;
      CompactConcat(a[1..], b);
    }
  }

  lemma {:induction false} CompactWhite(text: string)
    requires AllWhite(text)
    ensures Compact(text) == ""
  {
    if text != "" {
      assert text[0] in text;
      CompactWhite(text[1..]);
    }
  }

  lemma {:induction false} CompactGaps(core: string, gaps: seq<string>)
    requires HasNoWhite(core) && |gaps| == |core| + 1 && AllGaps(gaps)
    ensures Compact(WithGaps(core, gaps)) == core
  {
    CompactWhite(gaps[0]);
    if core != "" {
      assert core[0] in core;
      CompactGaps(core[1..], gaps[1..]);
      CompactConcat(gaps[0], [core[0]] + WithGaps(core[1..], gaps[1..]));
    }
  }

  lemma {:induction false} GapsOf(text: string) returns (gaps: seq<string>)
    ensures HasNoWhite(Compact(text)) && |gaps| == |Compact(text)| + 1 && AllGaps(gaps)
    ensures text == WithGaps(Compact(text), gaps)
  {
    if text == "" {
      gaps := [""];
    } else {
      var rest := GapsOf(text[1..]);
      if IsWhiteSpace(text[0]) {
        gaps := rest[0 := [text[0]] + rest[0]];
      } else {
        gaps := [""] + rest;
      }
    }
  }

  /** Compacting undoes spreading, and every text is its compact form spread out. */
  lemma {:induction false} CompactExactly(text: string, core: string)
    ensures Compact(text) == core <==> IsSpread(text, core)
  {
    var gaps := GapsOf(text);
    if IsSpread(text, core) {
      var other :| |other| == |core| + 1 && AllGaps(other) && text == WithGaps(core, other);
      CompactGaps(core, other);
    }
  }

  // -------------------------------------------------- text-encoded blocks

  /** What encoded text, compacted, says: hexadecimal digits in either case, or what the foreign decoder makes of it. */
  ghost predicate Spells(env: Environment, encoding: TextEncoding, core: string, bytes: seq<byte>)
  {
    match encoding
    case Hex => LowerCase(core) == HexText(bytes)
    case Base64 => env.base64(core) == Ok(bytes)
  }

  predicate IsTextual(data: DataRef, encoding: TextEncoding)
  {
    data.location == Some(Inline(encoding)) || data.location == Some(Embedded(encoding))
  }

  /** Exactly what a block in the header's text stores; absent text is text of no characters. */
  lemma {:induction false} TextExactly(r: Reader, data: DataRef, encoding: TextEncoding, bytes: seq<byte>)
    requires IsTextual(data, encoding)
    ensures StoredUnchecked(r, data) == Ok(bytes) <==>
      exists core :: IsSpread(data.text.GetOr(""), core) && Spells(r.env, encoding, core, bytes)
  {
    var text := data.text.GetOr("");
    CompactExactly(text, Compact(text));
    forall core | IsSpread(text, core)
      ensures core == Compact(text)
    {
      CompactExactly(text, core);
    }
    AttributeGrammar.HexExactly(Compact(text), bytes);
  }

  /** Hexadecimal text is refused exactly when its digits are odd in number or are not all digits. */
  lemma {:induction false} HexRefusedExactly(r: Reader, data: DataRef, core: string)
    requires IsTextual(data, Hex) && IsSpread(data.text.GetOr(""), core)
    ensures StoredUnchecked(r, data) == Err(BadAttribute) <==>
      |core| % 2 == 1 || exists c <- core :: DigitValue(c).None?
    ensures core == "" ==> StoredUnchecked(r, data) == Ok([])
  {
    CompactExactly(data.text.GetOr(""), core);
    AttributeGrammar.HexDecodesExactly(core);
  }

  /** The stored bytes are what some data was prepared as. */
  ghost predicate IsPrepared(engine: Engine, stored: seq<byte>, data: DataRef, plain: seq<byte>, options: BlockOptions)
  {
    |plain| < U64_LIMIT && Prepare(engine, plain, options) == Ok(StoredBlock(stored, data.compression, data.checksum))
  }

  /** What a block whose stored bytes are known yields: those bytes, or the data they were prepared from. */
  ghost predicate YieldsFrom(r: Reader, data: DataRef, stored: seq<byte>)
  {
    (data.compression.None? && data.checksum.None? ==> Block(r, data) == Ok(stored))
    && forall plain, options :: IsPrepared(r.env.engine, stored, data, plain, options) ==> Block(r, data) == Ok(plain)
  }

  lemma {:induction false} StoredYields(r: Reader, data: DataRef, stored: seq<byte>)
    requires Lawful(r.env.engine) && StoredUnchecked(r, data) == Ok(stored)
    ensures YieldsFrom(r, data, stored)
  {
    hide StoredUnchecked;
    hide Lawful;
    hide Prepare;
    forall plain, options | IsPrepared(r.env.engine, stored, data, plain, options)
      ensures Block(r, data) == Ok(plain)
    {
      PreparedBlockFetched(r, data, plain, options, StoredBlock(stored, data.compression, data.checksum));
    }
  }

  // -------------------------------------------------- blocks inline and embedded

  /** The attributes of an element, by their local names, none of them twice. */
  predicate TagStates(tag: Tag)
  {
    TagElement(tag).Ok? && DistinctKeys(Pairs(tag.attributes))
  }

  function AttributeOf(tag: Tag, key: string): Option<string>
    requires TagStates(tag)
  {
    Lookup(Pairs(tag.attributes), key)
  }

  lemma {:induction false} TagDataIs(tag: Tag)
    requires TagStates(tag)
    ensures States(Pairs(tag.attributes), TagElement(tag).value.data)
  {
    hide OwnData;
    hide States;
    AttributesExactly(Pairs(tag.attributes), TagElement(tag).value.data);
  }

  lemma {:induction false} TextLocationsRead()
    ensures ParseLocation("inline:base64") == Ok(Inline(Base64)) && ParseLocation("inline:hex") == Ok(Inline(Hex))
    ensures ParseLocation("embedded") == Ok(Embedded(Base64))
  {
    assert "inline" + ":" + "base64" == "inline:base64" && "inline" + ":" + "hex" == "inline:hex";
    TrimTight("inline:base64");
    TrimTight("inline:hex");
    TrimTight("embedded");
    LocationExactly("inline:base64", Inline(Base64));
    LocationExactly("inline:hex", Inline(Hex));
    LocationExactly("embedded", Embedded(Base64));
  }

  function InlineText(encoding: TextEncoding): string
  {
    match encoding case Base64 => "inline:base64" case Hex => "inline:hex"
  }

  /**
    The text of an element whose location is inline is its block: whatever comments and other elements stand
    between, and whatever white space, the bytes are those it spells.
   */
  lemma {:induction false} InlineStores(r: Reader, piece: Piece, encoding: TextEncoding, core: string, bytes: seq<byte>)
    requires piece.Node? && Meaningful(piece) && TagStates(piece.tag) && NoData(piece.items)
    requires AttributeOf(piece.tag, "location") == Some(InlineText(encoding))
    requires IsSpread(TextOf(piece.items), core) && Spells(r.env, encoding, core, bytes)
    ensures StoredUnchecked(r, Built(piece).data) == Ok(bytes)
    ensures Built(piece).data.compression == TagElement(piece.tag).value.data.compression
    ensures Built(piece).data.checksum == TagElement(piece.tag).value.data.checksum
  {
    hide TextOf;
    hide NoData;
    hide IsSpread;
    hide Spells;
    hide Filled;
    hide ParseLocation;
    hide StatesCompression;
    hide StoredUnchecked;
    TagDataIs(piece.tag);
    TextLocationsRead();
    var e := TagElement(piece.tag).value;
    FilledText(e, piece.items);
    assert Built(piece) == Filled(e, piece.items);
    assert Built(piece).data.text.GetOr("") == TextOf(piece.items);
    TextExactly(r, Built(piece).data, encoding, bytes);
  }

  lemma {:induction false} BlankText(text: string)
    requires AllWhite(text)
    ensures IsBlank(Some(text))
  {
    TrimWhite(text);
  }

  /** An element whose location is embedded, its `Data` child, and indentation around that. */
  predicate Embeds(piece: Piece, before: seq<Piece>, child: Piece, after: seq<Piece>)
  {
    piece.Node? && piece.items == before + ([child] + after) && Meaningful(piece) && TagStates(piece.tag)
    && AttributeOf(piece.tag, "location") == Some("embedded")
    && AttributeOf(piece.tag, "compression") == None && AttributeOf(piece.tag, "checksum") == None
    && child.Node? && Meaningful(child) && TagStates(child.tag) && Built(child).Is("Data") && NoData(child.items)
    && MeaningfulIn(before) && MeaningfulIn(after) && NoData(before) && NoData(after)
  }

  /** What the encoding attribute of a `Data` element says, base64 unless it says otherwise. */
  function EncodingText(encoding: TextEncoding): string
  {
    match encoding case Base64 => "base64" case Hex => "hex"
  }

  predicate StatesEncoding(tag: Tag, encoding: TextEncoding)
    requires TagStates(tag)
  {
    AttributeOf(tag, "encoding") == Some(EncodingText(encoding))
    || (encoding == Base64 && AttributeOf(tag, "encoding") == None)
  }

  /** What is promoted from a `Data` child into the element around it. */
  lemma {:induction false} EmbeddedBuilt(piece: Piece, before: seq<Piece>, child: Piece, after: seq<Piece>,
      encoding: TextEncoding)
    requires Embeds(piece, before, child, after) && StatesEncoding(child.tag, encoding) && AllWhite(TextOf(before))
    ensures var data := Built(piece).data; var own := TagElement(child.tag).value.data;
      data.location == Some(Embedded(encoding)) && data.compression == own.compression && data.checksum == own.checksum
      && data.text.GetOr("") == TextOf(child.items) + TextOf(after)
  {
    EmbeddedFills(piece, before, child, after);
    OwnReferences(piece, before, child, after, encoding);
    hide TextOf;
    hide Embeds;
    hide IsBlank;
    hide States;
    var e, own := TagElement(piece.tag).value.data, TagElement(child.tag).value.data;
    BlankText(TextOf(before));
    PromotedText(e, own, TextOf(before), TextOf(child.items), TextOf(after));
  }

  /** The references of the two tags by themselves. */
  lemma {:induction false} OwnReferences(piece: Piece, before: seq<Piece>, child: Piece, after: seq<Piece>,
      encoding: TextEncoding)
    requires Embeds(piece, before, child, after) && StatesEncoding(child.tag, encoding)
    ensures var e := TagElement(piece.tag).value.data; var own := TagElement(child.tag).value.data;
      e.location == Some(Embedded(Base64)) && e.compression == None && e.checksum == None && e.text == None
      && own.encoding.GetOr(Base64) == encoding && own.text == None
  {
    hide Filled;
    hide ParseLocation;
    hide Lookup;
    hide NoData;
    TagDataIs(piece.tag);
    TagDataIs(child.tag);
    TextLocationsRead();
  }

  lemma {:induction false} EmbeddedFills(piece: Piece, before: seq<Piece>, child: Piece, after: seq<Piece>)
    requires Embeds(piece, before, child, after)
    ensures var e := TagElement(piece.tag).value.data; var own := TagElement(child.tag).value.data;
      Built(piece).data
      == WithText(Promote(WithText(e, TextOf(before)), WithText(own, TextOf(child.items))), TextOf(after))
  {
    hide TextOf;
    hide NoData;
    hide TagStates;
    hide Promote;
    hide WithText;
    hide AttributeOf;
    var e := TagElement(piece.tag).value;
    FilledConcat(e, before, [child] + after);
    var indented := Filled(e, before);
    FilledText(e, before);
    FilledChild(indented, child, after);
    FilledText(Adopt(indented, Built(child)), after);
    FilledText(TagElement(child.tag).value, child.items);
  }

  lemma {:induction false} PromotedText(e: DataRef, own: DataRef, before: string, text: string, after: string)
    requires e.location == Some(Embedded(Base64)) && e.compression == None && e.checksum == None && e.text == None
    requires own.text == None && IsBlank(Some(before))
    ensures var data := WithText(Promote(WithText(e, before), WithText(own, text)), after);
      data.location == Some(Embedded(own.encoding.GetOr(Base64)))
      && data.compression == own.compression && data.checksum == own.checksum
      && data.text.GetOr("") == text + after
  {
    assert IsBlank(None);
    hide IsBlank;
    assert "" + before == before && "" + text == text && "" + after == after && text + "" == text;
  }

  lemma {:induction false} FilledChild(e: Element, child: Piece, after: seq<Piece>)
    requires MeaningfulIn([child] + after) && IsElement(child)
    ensures Meaningful(child) && MeaningfulIn(after)
    ensures Filled(e, [child] + after) == Filled(Adopt(e, Built(child)), after)
  {
    assert ([child] + after)[1..] == after;
  }

  /** The text of a `Data` child is the block of the element around it, in the encoding the child states. */
  lemma {:induction false} EmbeddedStores(r: Reader, piece: Piece, before: seq<Piece>, child: Piece, after: seq<Piece>,
      encoding: TextEncoding, core: string, bytes: seq<byte>)
    requires Embeds(piece, before, child, after) && StatesEncoding(child.tag, encoding)
    requires AllWhite(TextOf(before)) && AllWhite(TextOf(after))
    requires IsSpread(TextOf(child.items), core) && Spells(r.env, encoding, core, bytes)
    ensures StoredUnchecked(r, Built(piece).data) == Ok(bytes)
    ensures Built(piece).data.compression == TagElement(child.tag).value.data.compression
    ensures Built(piece).data.checksum == TagElement(child.tag).value.data.checksum
  {
    assert IsElement(piece) && Meaningful(piece);
    hide TextOf;
    hide Spells;
    hide IsSpread;
    hide Compact;
    hide StoredUnchecked;
    hide Filled;
    hide NoData;
    hide TagStates;
    var text, white := TextOf(child.items), TextOf(after);
    EmbeddedBuilt(piece, before, child, after, encoding);
    CompactExactly(text, core);
    CompactWhite(white);
    CompactConcat(text, white);
    CompactExactly(text + white, core);
    assert core + "" == core;
    TextExactly(r, Built(piece).data, encoding, bytes);
  }

  // -------------------------------------------------- blocks cut into pieces

  /** The attributes of a compressed block and of the pieces it was compressed in. */
  predicate StatesPieces(tag: Tag, codec: Codec, size: u64, item: Option<u64>, sizes: seq<(u64, u64)>)
    requires TagStates(tag) && sizes != []
  {
    AttributeOf(tag, "compression") == Some(CompressionText(Compression(codec, size, item, [])))
    && AttributeOf(tag, "subblocks") == Some(Join(AttributeGrammar.SubblockTexts(sizes), ':'))
  }

  lemma {:induction false} PiecesStated(tag: Tag, codec: Codec, size: u64, item: Option<u64>, sizes: seq<(u64, u64)>)
    requires TagStates(tag) && sizes != [] && CodecIsSpellable(Compression(codec, size, item, []))
    requires StatesPieces(tag, codec, size, item, sizes)
    ensures TagElement(tag).value.data.compression == Some(Compression(codec, size, item, sizes))
  {
    hide ParseCompression;
    hide ParseSubblocks;
    hide CodecIsSpellable;
    hide CompressionText;
    hide Lookup;
    var c := Compression(codec, size, item, []);
    CompressionReadsBackExactly(c);
    AttributeGrammar.SubblocksReadBack(sizes);
    TagDataIs(tag);
    var own := TagElement(tag).value.data.compression.value;
    assert own.(subblocks := []) == c && own.subblocks == sizes;
  }

  /**
    Data cut any way into pieces, after shuffling or not, and each compressed by itself: an element that states
    the sizes of the pieces yields the data, in whatever order its attributes come.
   */
  lemma {:induction false} PiecesYield(r: Reader, tag: Tag, data: DataRef, plain: seq<byte>, codec: Codec,
      item: Option<u64>, parts: seq<seq<byte>>, packed: seq<seq<byte>>)
    requires Lawful(r.env.engine) && PackedSeparately(r.env.engine, codec, parts, packed) && parts != []
    requires Concat(parts) == Staged(plain, item) && |plain| < U64_LIMIT && |Concat(packed)| < U64_LIMIT
    requires CodecIsSpellable(Compression(codec, |plain|, item, []))
    requires TagStates(tag) && StatesPieces(tag, codec, |plain|, item, PieceSizes(parts, packed))
    requires data.compression == TagElement(tag).value.data.compression
    requires Stored(r, data) == Ok(Concat(packed))
    ensures Block(r, data) == Ok(plain)
  {
    hide Lawful;
    hide CodecIsSpellable;
    hide Stored;
    hide Decode;
    PiecesStated(tag, codec, |plain|, item, PieceSizes(parts, packed));
    AnySplitDecodes(r.env.engine, plain, codec, item, parts, packed);
  }

  // -------------------------------------------------- from events to data

  /**
    From a header's events to an inline block: wherever the element stands in a document that parses, it is an
    element of the header, and its block holds the bytes its text spells.
   */
  lemma {:induction false} InlineBlockRead(r: Reader, items: seq<Piece>, piece: Piece, encoding: TextEncoding,
      core: string, bytes: seq<byte>)
    requires Parse(EventsIn(items)).Ok? && RootOf(items).Some? && Inside(piece, RootOf(items).value)
    requires Lawful(r.env.engine)
    requires piece.Node? && Meaningful(piece) && TagStates(piece.tag) && NoData(piece.items)
    requires AttributeOf(piece.tag, "location") == Some(InlineText(encoding))
    requires IsSpread(TextOf(piece.items), core) && Spells(r.env, encoding, core, bytes)
    ensures Built(piece) in Preorder(Parse(EventsIn(items)).value.root)
    ensures YieldsFrom(r, Built(piece).data, bytes)
  {
    hide TextOf;
    hide NoData;
    hide IsSpread;
    hide Spells;
    hide Lawful;
    hide YieldsFrom;
    hide Lookup;
    ElementIsRead(items, piece);
    InlineStores(r, piece, encoding, core, bytes);
    StoredYields(r, Built(piece).data, bytes);
  }

  /** The same for a block embedded in a `Data` child, whose attributes describe it. */
  lemma {:induction false} EmbeddedBlockRead(r: Reader, items: seq<Piece>, piece: Piece, before: seq<Piece>,
      child: Piece, after: seq<Piece>, encoding: TextEncoding, core: string, bytes: seq<byte>)
    requires Parse(EventsIn(items)).Ok? && RootOf(items).Some? && Inside(piece, RootOf(items).value)
    requires Lawful(r.env.engine) && Embeds(piece, before, child, after) && StatesEncoding(child.tag, encoding)
    requires AllWhite(TextOf(before)) && AllWhite(TextOf(after))
    requires IsSpread(TextOf(child.items), core) && Spells(r.env, encoding, core, bytes)
    ensures Built(piece) in Preorder(Parse(EventsIn(items)).value.root)
    ensures YieldsFrom(r, Built(piece).data, bytes)
    ensures Built(piece).data.compression == TagElement(child.tag).value.data.compression
    ensures Built(piece).data.checksum == TagElement(child.tag).value.data.checksum
  {
    assert IsElement(piece) && Meaningful(piece);
    hide TextOf;
    hide IsSpread;
    hide Spells;
    hide Lawful;
    hide YieldsFrom;
    hide Lookup;
    hide AllWhite;
    hide NoData;
    ElementIsRead(items, piece);
    EmbeddedStores(r, piece, before, child, after, encoding, core, bytes);
    StoredYields(r, Built(piece).data, bytes);
  }

  /** An attached block's element, with nothing between its tags that bears on the block. */
  predicate Attaches(piece: Piece, position: u64, size: u64)
  {
    IsElement(piece) && Meaningful(piece) && TagStates(piece.tag) && (piece.Node? ==> NoData(piece.items))
    && AttributeOf(piece.tag, "location") == Some(AttachmentText(position, size))
    && AttributeOf(piece.tag, "checksum") == None
  }

  lemma {:induction false} AttachedReference(piece: Piece, position: u64, size: u64)
    requires Attaches(piece, position, size)
    ensures var data := Built(piece).data;
      data.location == Some(Attachment(position, size)) && data.checksum == None
      && data.compression == TagElement(piece.tag).value.data.compression
  {
    hide ParseLocation;
    hide StatesCompression;
    hide TextOf;
    hide Lookup;
    hide Filled;
    TagDataIs(piece.tag);
    AttachmentReadsBack(position, size);
    if piece.Node? {
      FilledText(TagElement(piece.tag).value, piece.items);
    }
  }

  /** From a header's events to the data of a block cut into pieces, attached at a place in the file. */
  lemma {:induction false} PiecesRead(r: Reader, items: seq<Piece>, piece: Piece, position: u64, plain: seq<byte>,
      codec: Codec, item: Option<u64>, parts: seq<seq<byte>>, packed: seq<seq<byte>>)
    requires Parse(EventsIn(items)).Ok? && RootOf(items).Some? && Inside(piece, RootOf(items).value)
    requires Lawful(r.env.engine) && PackedSeparately(r.env.engine, codec, parts, packed) && parts != []
    requires Concat(parts) == Staged(plain, item) && |plain| < U64_LIMIT && |Concat(packed)| < U64_LIMIT
    requires CodecIsSpellable(Compression(codec, |plain|, item, []))
    requires Attaches(piece, position, |Concat(packed)|)
    requires StatesPieces(piece.tag, codec, |plain|, item, PieceSizes(parts, packed))
    requires r.layout.end <= position && position + |Concat(packed)| <= |r.source|
    requires r.source[position..position + |Concat(packed)|] == Concat(packed)
    ensures Built(piece) in Preorder(Parse(EventsIn(items)).value.root)
    ensures Block(r, Built(piece).data) == Ok(plain)
  {
    hide Lawful;
    hide CodecIsSpellable;
    hide StatesPieces;
    hide PieceSizes;
    hide PackedSeparately;
    hide Block;
    AttachedReference(piece, position, |Concat(packed)|);
    ElementIsRead(items, piece);
    hide Attaches;
    PiecesYield(r, piece.tag, Built(piece).data, plain, codec, item, parts, packed);
  }
}
