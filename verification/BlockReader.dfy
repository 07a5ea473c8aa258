/** Fetching a block's bytes: where they are, whether they are intact, and what they decode to. */
module BlockReader {
  import opened Primitives
  import Text
  import opened Locations
  import BlockAttributes
  import opened BlockCodec
  import ExternalBlocks
  import opened HeaderTree
  import opened FileLayout

  /** What a reader is given from outside: foreign code, other files, and its one setting. */
  datatype Environment = Environment(
    engine: Engine,
    base64: string -> Result<seq<byte>>,
    resolve: string -> Result<FileBytes>,
    fetch: Option<string -> Result<FileBytes>>,
    verifyChecksums: bool)

  datatype Reader = Reader(source: FileBytes, layout: Layout, env: Environment)

  function Compact(text: string): string
  {
    if text == [] then []
    else if Text.IsWhiteSpace(text[0]) then Compact(text[1..])
    else [text[0]] + Compact(text[1..])
  }

  /** A text-encoded block; white space means nothing in either encoding. */
  function DecodeText(env: Environment, text: string, encoding: TextEncoding): Result<seq<byte>>
  {
    match encoding
    case Base64 => env.base64(Compact(text))
    case Hex =>
      match BlockAttributes.DecodeHex(Compact(text))
      case None => Err(BadAttribute)
      case Some(bytes) => Ok(bytes)
  }

  /** What a file holds for a block, whatever digest it should have. */
  function StoredUnchecked(r: Reader, data: DataRef): Result<seq<byte>>
  {
    match data.location
    case None => Err(NotFound)
    case Some(Attachment(position, size)) =>
      if position + size >= U64_LIMIT then Err(Truncated)
      else if position < r.layout.end then Err(BadAttribute)
      else if position + size > |r.source| then Err(Truncated)
      else Ok(r.source[position..position + size])
    case Some(Inline(encoding)) => DecodeText(r.env, data.text.GetOr(""), encoding)
    case Some(Embedded(encoding)) => DecodeText(r.env, data.text.GetOr(""), encoding)
    case Some(Path(locator, index)) =>
      if r.layout.form == Monolithic then Err(BadAttribute)
      else
        var file :- r.env.resolve(locator);
        ExternalBlocks.ReadExternal(file, index)
    case Some(Url(locator, index)) =>
      if r.layout.form == Monolithic then Err(BadAttribute)
      else
        match r.env.fetch
        case None => Err(Unsupported)
        case Some(fetch) =>
          var file :- fetch(locator);
          ExternalBlocks.ExtractExternal(file, index)
  }

  /** The stored bytes, checked against the recorded checksum unless checking is off. */
  function Stored(r: Reader, data: DataRef): Result<seq<byte>>
  {
    var stored :- StoredUnchecked(r, data);
    if r.env.verifyChecksums && data.checksum.Some?
       && r.env.engine.hash(stored, data.checksum.value.algorithm) != data.checksum.value.digest
    then Err(ChecksumMismatch)
    else Ok(stored)
  }

  /** What a caller gets: the stored bytes, decompressed if need be, in their first order. */
  function Block(r: Reader, data: DataRef): Result<seq<byte>>
  {
    var stored :- Stored(r, data);
    ReadBack(r.env.engine, stored, data.compression)
  }

  /** A block reference that describes a prepared block's bytes fetches the data it was prepared from. */
  lemma {:induction false} PreparedBlockFetched(r: Reader, data: DataRef, plain: seq<byte>, options: BlockOptions,
      b: StoredBlock)
    requires Lawful(r.env.engine) && |plain| < U64_LIMIT && Prepare(r.env.engine, plain, options) == Ok(b)
    requires StoredUnchecked(r, data) == Ok(b.bytes)
    requires data.compression == b.compression && data.checksum == b.checksum
    ensures Block(r, data) == Ok(plain)
  {
    PreparedReadsBack(r.env.engine, plain, options);
  }

  /** In a monolithic file what a block yields never depends on other files or the network. */
  lemma {:induction false} MonolithicIsSelfContained(r: Reader, data: DataRef, resolve: string -> Result<FileBytes>,
      fetch: Option<string -> Result<FileBytes>>)
    requires r.layout.form == Monolithic
    ensures Block(r.(env := r.env.(resolve := resolve, fetch := fetch)), data) == Block(r, data)
  {
    var other := r.(env := r.env.(resolve := resolve, fetch := fetch));
    assert StoredUnchecked(other, data) == StoredUnchecked(r, data);
  }

  /** Verifying checksums only ever refuses: what it lets through is what is read without it, with a matching digest. */
  lemma {:induction false} VerificationOnlyRefuses(r: Reader, data: DataRef)
    requires r.env.verifyChecksums
    ensures var trusting := r.(env := r.env.(verifyChecksums := false));
      (Stored(r, data).Ok? ==> Stored(trusting, data) == Stored(r, data))
      && (Stored(r, data).Ok? && data.checksum.Some? ==>
            r.env.engine.hash(Stored(r, data).value, data.checksum.value.algorithm) == data.checksum.value.digest)
      && (Stored(r, data).Err? && Stored(trusting, data).Ok? ==> Stored(r, data) == Err(ChecksumMismatch))
  {
    var trusting := r.(env := r.env.(verifyChecksums := false));
    assert StoredUnchecked(trusting, data) == StoredUnchecked(r, data);
  }

  /**
    Exactly which attached blocks are there to be read, and what they hold: those that begin after the header and
    end within the file. One that runs past the end is truncated, and any other would overlap the header.
   */
  lemma {:induction false} AttachmentExactly(r: Reader, data: DataRef, position: u64, size: u64, bytes: seq<byte>)
    requires data.location == Some(Attachment(position, size)) && position + size < U64_LIMIT
    ensures StoredUnchecked(r, data) == Ok(bytes) <==>
      r.layout.end <= position
      && exists before, after :: r.source == before + bytes + after && |before| == position && |bytes| == size
    ensures position < r.layout.end ==> StoredUnchecked(r, data) == Err(BadAttribute)
    ensures r.layout.end <= position && |r.source| < position + size ==> StoredUnchecked(r, data) == Err(Truncated)
  {
    if r.layout.end <= position && position + size <= |r.source| {
      var before, after := r.source[..position], r.source[position + size..];
      assert r.source == before + r.source[position..position + size] + after;
    }
    forall before, after | r.source == before + bytes + after && |before| == position && |bytes| == size
      ensures position + size <= |r.source| && r.source[position..position + size] == bytes
    {
    }
  }
}
