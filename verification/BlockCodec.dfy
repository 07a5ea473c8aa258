/** Storing a block and getting it back: shuffling, compression, subblocks and checksums. */
module BlockCodec {
  import opened Primitives
  import opened Shuffle
  import opened BlockAttributes

  /** The foreign code a block passes through: compressors and hash functions. */
  datatype Engine = Engine(
    compress: (seq<byte>, Codec) -> Result<seq<byte>>,
    decompress: (seq<byte>, Codec, nat) -> Result<seq<byte>>,
    hash: (seq<byte>, ChecksumAlgorithm) -> seq<byte>)

  function MaxExpansionRatio(codec: Codec): nat
  {
    match codec
    case Zlib => 2048
    case Lz4 => 512
    case Lz4Hc => 512
    case Zstd => 65_536
    case Other(_) => 65_536
  }

  /** What the codec layer relies on: decompressing undoes compressing, and neither is out of bounds. */
  ghost predicate Lawful(engine: Engine)
  {
    (forall x, codec :: engine.compress(x, codec).Ok? ==>
      engine.decompress(engine.compress(x, codec).value, codec, |x|) == Ok(x)
      && |x| <= |engine.compress(x, codec).value| * MaxExpansionRatio(codec))
    && (forall s, codec, n: nat :: engine.decompress(s, codec, n).Ok? ==>
        |engine.decompress(s, codec, n).value| <= n + 1)
    && (forall x, algorithm :: |engine.hash(x, algorithm)| == DigestLen(algorithm))
  }

  // -------------------------------------------------- decoding

  function CompressedTotal(subblocks: seq<(u64, u64)>): nat
  {
    if subblocks == [] then 0 else subblocks[0].0 + CompressedTotal(subblocks[1..])
  }

  function UncompressedTotal(subblocks: seq<(u64, u64)>): nat
  {
    if subblocks == [] then 0 else subblocks[0].1 + UncompressedTotal(subblocks[1..])
  }

  /** Decompress the pieces of a block in turn; each must give exactly the size it declares. */
  function DecodePieces(engine: Engine, codec: Codec, rest: seq<byte>, subblocks: seq<(u64, u64)>): Result<seq<byte>>
    requires CompressedTotal(subblocks) == |rest|
    decreases |subblocks|
  {
    if subblocks == [] then Ok([])
    else
      var (compressed, uncompressed) := subblocks[0];
      var plain :- engine.decompress(rest[..compressed], codec, uncompressed);
      if |plain| != uncompressed then Err(CompressionFailed)
      else
        var tail :- DecodePieces(engine, codec, rest[compressed..], subblocks[1..]);
        Ok(plain + tail)
  }

  function DecodeSubblocks(engine: Engine, stored: seq<byte>, c: Compression): Result<seq<byte>>
  {
    if CompressedTotal(c.subblocks) >= U64_LIMIT || UncompressedTotal(c.subblocks) >= U64_LIMIT then
      Err(CompressionFailed)
    else if CompressedTotal(c.subblocks) != |stored| then Err(CompressionFailed)
    else if UncompressedTotal(c.subblocks) != c.uncompressedSize then Err(CompressionFailed)
    else DecodePieces(engine, c.codec, stored, c.subblocks)
  }

  /** The most a block of this many bytes may claim to expand to. */
  function Ceiling(stored: nat, codec: Codec): nat
  {
    Max(Min(stored * MaxExpansionRatio(codec), U64_LIMIT - 1), 1024)
  }

  function Decode(engine: Engine, stored: seq<byte>, c: Compression): Result<seq<byte>>
  {
    if c.uncompressedSize > Ceiling(|stored|, c.codec) then Err(CompressionFailed)
    else
      var plain :- if c.subblocks == [] then engine.decompress(stored, c.codec, c.uncompressedSize)
                   else DecodeSubblocks(engine, stored, c);
      if |plain| != c.uncompressedSize then Err(CompressionFailed)
      else Ok(match c.shuffleItemSize case None => plain case Some(item) => Unshuffled(plain, item))
  }

  lemma {:induction false} TotalsSplit(subblocks: seq<(u64, u64)>, i: nat)
    requires i <= |subblocks|
    ensures CompressedTotal(subblocks) == CompressedTotal(subblocks[..i]) + CompressedTotal(subblocks[i..])
    ensures UncompressedTotal(subblocks) == UncompressedTotal(subblocks[..i]) + UncompressedTotal(subblocks[i..])
  {
    if i == 0 {
      assert subblocks[0..] == subblocks;
    } else {
      TotalsSplit(subblocks[1..], i - 1);
      assert subblocks[..i][1..] == subblocks[1..][..i - 1] && subblocks[1..][i - 1..] == subblocks[i..];
    }
  }

  lemma {:induction false} TotalsStep(subblocks: seq<(u64, u64)>, i: nat)
    requires i < |subblocks|
    ensures CompressedTotal(subblocks[..i + 1]) == CompressedTotal(subblocks[..i]) + subblocks[i].0
    ensures UncompressedTotal(subblocks[..i + 1]) == UncompressedTotal(subblocks[..i]) + subblocks[i].1
    ensures CompressedTotal(subblocks[..i + 1]) <= CompressedTotal(subblocks)
    ensures UncompressedTotal(subblocks[..i + 1]) <= UncompressedTotal(subblocks)
  {
    var head := subblocks[..i + 1];
    TotalsSplit(subblocks, i + 1);
    TotalsSplit(head, i);
    assert head[..i] == subblocks[..i] && head[i..] == [subblocks[i]];
    assert CompressedTotal([subblocks[i]]) == subblocks[i].0 && UncompressedTotal([subblocks[i]]) == subblocks[i].1;
  }

  /** The first loop: both totals, with overflow checked at each step. */
  method SumSubblocks(subblocks: seq<(u64, u64)>) returns (r: Result<(nat, nat)>)
    ensures r == if CompressedTotal(subblocks) < U64_LIMIT && UncompressedTotal(subblocks) < U64_LIMIT
                 then Ok((CompressedTotal(subblocks), UncompressedTotal(subblocks))) else Err(CompressionFailed)
  {
    var compressedTotal: nat, uncompressedTotal: nat := 0, 0;
    for i := 0 to |subblocks|
      invariant compressedTotal == CompressedTotal(subblocks[..i]) < U64_LIMIT
      invariant uncompressedTotal == UncompressedTotal(subblocks[..i]) < U64_LIMIT
    {
      TotalsStep(subblocks, i);
      compressedTotal := compressedTotal + subblocks[i].0;
      if compressedTotal >= U64_LIMIT {
        return Err(CompressionFailed);
      }
      uncompressedTotal := uncompressedTotal + subblocks[i].1;
      if uncompressedTotal >= U64_LIMIT {
        return Err(CompressionFailed);
      }
    }
    assert subblocks[..|subblocks|] == subblocks;
    return Ok((compressedTotal, uncompressedTotal));
  }

  /** The second loop: split off each piece, which the totals have shown to be there, and decompress it. */
  method DecompressSubblocks(engine: Engine, stored: seq<byte>, c: Compression) returns (r: Result<seq<byte>>)
    ensures r == DecodeSubblocks(engine, stored, c)
  {
    var totals := SumSubblocks(c.subblocks);
    if totals.Err? {
      return Err(totals.kind);
    }
    if totals.value.0 != |stored| {
      return Err(CompressionFailed);
    }
    if totals.value.1 != c.uncompressedSize {
      return Err(CompressionFailed);
    }
    var out: seq<byte> := [];
    var rest := stored;
    PrefixedNothing(DecodePieces(engine, c.codec, stored, c.subblocks));
    var n := 0;
    assert c.subblocks[0..] == c.subblocks;
    while n < |c.subblocks|
      invariant 0 <= n <= |c.subblocks| && CompressedTotal(c.subblocks[n..]) == |rest|
      invariant Prefixed(out, DecodePieces(engine, c.codec, rest, c.subblocks[n..]))
             == DecodePieces(engine, c.codec, stored, c.subblocks)
    {
      var (compressed, uncompressed) := c.subblocks[n];
      assert c.subblocks[n..][1..] == c.subblocks[n + 1..];
      var chunk := rest[..compressed];
      var plain := engine.decompress(chunk, c.codec, uncompressed);
      if plain.Err? {
        return Err(plain.kind);
      }
      if |plain.value| != uncompressed {
        return Err(CompressionFailed);
      }
      PrefixedTwice(out, plain.value, DecodePieces(engine, c.codec, rest[compressed..], c.subblocks[n + 1..]));
      rest := rest[compressed..];
      out := out + plain.value;
      n := n + 1;
    }
    assert out + [] == out;
    return Ok(out);
  }

  method DecodeBlock(engine: Engine, stored: seq<byte>, c: Compression) returns (r: Result<seq<byte>>)
    ensures r == Decode(engine, stored, c)
  {
    if c.uncompressedSize > Ceiling(|stored|, c.codec) {
      return Err(CompressionFailed);
    }
    var plain;
    if c.subblocks == [] {
      plain := engine.decompress(stored, c.codec, c.uncompressedSize);
    } else {
      plain := DecompressSubblocks(engine, stored, c);
    }
    if plain.Err? {
      return Err(plain.kind);
    }
    if |plain.value| != c.uncompressedSize {
      return Err(CompressionFailed);
    }
    match c.shuffleItemSize {
      case None => return plain;
      case Some(item) =>
        var out := UnshuffleBytes(plain.value, item);
        return Ok(out);
    }
  }

  // -------------------------------------------------- exactly which blocks decode

  /** The stored bytes of piece `i`, by the sizes of those before it. */
  function Chunk(stored: seq<byte>, subblocks: seq<(u64, u64)>, i: nat): seq<byte>
    requires i < |subblocks| && CompressedTotal(subblocks) == |stored|
  {
    TotalsStep(subblocks, i);
    stored[CompressedTotal(subblocks[..i])..CompressedTotal(subblocks[..i]) + subblocks[i].0]
  }

  /** Piece `i` decompresses by itself, to exactly its declared size. */
  ghost predicate Unpacks(engine: Engine, codec: Codec, stored: seq<byte>, subblocks: seq<(u64, u64)>, i: nat,
      piece: seq<byte>)
    requires i < |subblocks| && CompressedTotal(subblocks) == |stored|
  {
    engine.decompress(Chunk(stored, subblocks, i), codec, subblocks[i].1) == Ok(piece) && |piece| == subblocks[i].1
  }

  ghost predicate AllUnpack(engine: Engine, codec: Codec, stored: seq<byte>, subblocks: seq<(u64, u64)>,
      pieces: seq<seq<byte>>)
    requires CompressedTotal(subblocks) == |stored|
  {
    |pieces| == |subblocks| && forall i :: 0 <= i < |pieces| ==> Unpacks(engine, codec, stored, subblocks, i, pieces[i])
  }

  lemma {:induction false} FirstChunk(stored: seq<byte>, subblocks: seq<(u64, u64)>)
    requires subblocks != [] && CompressedTotal(subblocks) == |stored|
    ensures Chunk(stored, subblocks, 0) == stored[..subblocks[0].0]
  {
    assert subblocks[..0] == [];
  }

  lemma {:induction false} LaterChunk(stored: seq<byte>, subblocks: seq<(u64, u64)>, i: nat)
    requires i + 1 < |subblocks| && CompressedTotal(subblocks) == |stored|
    ensures Chunk(stored, subblocks, i + 1) == Chunk(stored[subblocks[0].0..], subblocks[1..], i)
  {
    TotalsStep(subblocks, i + 1);
    TotalsStep(subblocks[1..], i);
    assert subblocks[..i + 1][1..] == subblocks[1..][..i];
    var first, at, len := subblocks[0].0, CompressedTotal(subblocks[1..][..i]), subblocks[i + 1].0;
    assert stored[first..] == stored[first..|stored|];
    SubSlice(stored, first, |stored|, at, at + len);
  }

  /** Pieces that unpack make the whole unpack, to their concatenation. */
  lemma {:induction false} UnpackedDecodes(engine: Engine, codec: Codec, stored: seq<byte>,
      subblocks: seq<(u64, u64)>, pieces: seq<seq<byte>>)
    requires CompressedTotal(subblocks) == |stored| && AllUnpack(engine, codec, stored, subblocks, pieces)
    ensures DecodePieces(engine, codec, stored, subblocks) == Ok(Concat(pieces))
    decreases |subblocks|
  {
    if subblocks != [] {
      FirstChunk(stored, subblocks);
      assert Unpacks(engine, codec, stored, subblocks, 0, pieces[0]);
      var rest, tail := stored[subblocks[0].0..], pieces[1..];
      forall i | 0 <= i < |tail|
        ensures Unpacks(engine, codec, rest, subblocks[1..], i, tail[i])
      {
        LaterChunk(stored, subblocks, i);
        assert Unpacks(engine, codec, stored, subblocks, i + 1, pieces[i + 1]);
      }
      UnpackedDecodes(engine, codec, rest, subblocks[1..], tail);
    }
  }

  /** A whole that unpacks does so piece by piece. */
  lemma {:induction false} DecodedUnpacks(engine: Engine, codec: Codec, stored: seq<byte>, subblocks: seq<(u64, u64)>)
      returns (pieces: seq<seq<byte>>)
    requires CompressedTotal(subblocks) == |stored| && DecodePieces(engine, codec, stored, subblocks).Ok?
    ensures AllUnpack(engine, codec, stored, subblocks, pieces)
    ensures DecodePieces(engine, codec, stored, subblocks) == Ok(Concat(pieces))
    decreases |subblocks|
  {
    if subblocks == [] {
      pieces := [];
    } else {
      FirstChunk(stored, subblocks);
      var rest := stored[subblocks[0].0..];
      var first := engine.decompress(stored[..subblocks[0].0], codec, subblocks[0].1).value;
      var tail := DecodedUnpacks(engine, codec, rest, subblocks[1..]);
      pieces := [first] + tail;
      forall i | 0 <= i < |pieces|
        ensures Unpacks(engine, codec, stored, subblocks, i, pieces[i])
      {
        if i > 0 {
          LaterChunk(stored, subblocks, i - 1);
          assert Unpacks(engine, codec, rest, subblocks[1..], i - 1, tail[i - 1]);
        }
      }
    }
  }

  /** The bytes a block decompresses to, before unshuffling: one stream, or pieces that account for all of it. */
  ghost predicate DecompressesTo(engine: Engine, stored: seq<byte>, c: Compression, plain: seq<byte>)
  {
    if c.subblocks == [] then engine.decompress(stored, c.codec, c.uncompressedSize) == Ok(plain)
    else
      CompressedTotal(c.subblocks) == |stored| < U64_LIMIT && UncompressedTotal(c.subblocks) == c.uncompressedSize
      && exists pieces :: AllUnpack(engine, c.codec, stored, c.subblocks, pieces) && plain == Concat(pieces)
  }

  function Restored(plain: seq<byte>, item: Option<u64>): seq<byte>
  {
    match item case None => plain case Some(size) => Unshuffled(plain, size)
  }

  /**
    Exactly which blocks decode, and to what: the declared size is plausible, the stored bytes
    decompress to that many, and those are unshuffled as a whole.
   */
  lemma {:induction false} DecodesExactly(engine: Engine, stored: seq<byte>, c: Compression, data: seq<byte>)
    ensures Decode(engine, stored, c) == Ok(data) <==>
      c.uncompressedSize <= Ceiling(|stored|, c.codec)
      && exists plain :: DecompressesTo(engine, stored, c, plain) && |plain| == c.uncompressedSize
                         && data == Restored(plain, c.shuffleItemSize)
  {
    if c.subblocks == [] {
      SingleDecodesExactly(engine, stored, c, data);
    } else {
      forall plain | DecompressesTo(engine, stored, c, plain)
        ensures DecodeSubblocks(engine, stored, c) == Ok(plain)
      {
        var pieces :| AllUnpack(engine, c.codec, stored, c.subblocks, pieces) && plain == Concat(pieces);
        UnpackedDecodes(engine, c.codec, stored, c.subblocks, pieces);
      }
      if DecodeSubblocks(engine, stored, c).Ok? {
        var pieces := DecodedUnpacks(engine, c.codec, stored, c.subblocks);
        assert DecompressesTo(engine, stored, c, DecodeSubblocks(engine, stored, c).value);
      }
    }
  }

  lemma {:induction false} SingleDecodesExactly(engine: Engine, stored: seq<byte>, c: Compression, data: seq<byte>)
    requires c.subblocks == []
    ensures Decode(engine, stored, c) == Ok(data) <==>
      c.uncompressedSize <= Ceiling(|stored|, c.codec)
      && exists plain :: DecompressesTo(engine, stored, c, plain) && |plain| == c.uncompressedSize
                         && data == Restored(plain, c.shuffleItemSize)
  {
    var plain := engine.decompress(stored, c.codec, c.uncompressedSize);
    assert plain.Ok? ==> DecompressesTo(engine, stored, c, plain.value);
  }

  // -------------------------------------------------- any split into subblocks

  /** The data as it is handed to a compressor. */
  function Staged(data: seq<byte>, item: Option<u64>): seq<byte>
  {
    match item case None => data case Some(size) => Shuffled(data, size)
  }

  /** `packed` holds the separately compressed forms of `parts`. */
  ghost predicate PackedSeparately(engine: Engine, codec: Codec, parts: seq<seq<byte>>, packed: seq<seq<byte>>)
  {
    |parts| == |packed| && forall i :: 0 <= i < |parts| ==> engine.compress(parts[i], codec) == Ok(packed[i])
  }

  /** The byte counts of each piece, compressed and not. */
  function PieceSizes(parts: seq<seq<byte>>, packed: seq<seq<byte>>): seq<(u64, u64)>
    requires |parts| == |packed|
    requires |Concat(parts)| < U64_LIMIT && |Concat(packed)| < U64_LIMIT
  {
    if parts == [] then [] else [(|packed[0]|, |parts[0]|)] + PieceSizes(parts[1..], packed[1..])
  }

  lemma {:induction false} PiecesDecode(engine: Engine, codec: Codec, parts: seq<seq<byte>>, packed: seq<seq<byte>>)
    requires Lawful(engine) && PackedSeparately(engine, codec, parts, packed)
    requires |Concat(parts)| < U64_LIMIT && |Concat(packed)| < U64_LIMIT
    ensures var sizes := PieceSizes(parts, packed);
      CompressedTotal(sizes) == |Concat(packed)| && UncompressedTotal(sizes) == |Concat(parts)|
      && DecodePieces(engine, codec, Concat(packed), sizes) == Ok(Concat(parts))
    ensures |Concat(parts)| <= |Concat(packed)| * MaxExpansionRatio(codec)
  {
    if parts != [] {
      PiecesDecode(engine, codec, parts[1..], packed[1..]);
      assert engine.compress(parts[0], codec) == Ok(packed[0]);
      var head, tail := packed[0], Concat(packed[1..]);
      assert (head + tail)[..|head|] == head && (head + tail)[|head|..] == tail;
      RatioDistributes(|head|, |tail|, MaxExpansionRatio(codec));
      assert PieceSizes(parts, packed)[1..] == PieceSizes(parts[1..], packed[1..]);
    }
  }

  lemma {:induction false} RatioDistributes(a: nat, b: nat, ratio: nat)
    ensures (a + b) * ratio == a * ratio + b * ratio
  {
  }

  /**
    However the staged data is cut into pieces, at least one, decoding the pieces' compressed forms
    laid end to end gives the data back.
   */
  lemma {:induction false} AnySplitDecodes(engine: Engine, data: seq<byte>, codec: Codec, item: Option<u64>,
                        parts: seq<seq<byte>>, packed: seq<seq<byte>>)
    requires Lawful(engine) && PackedSeparately(engine, codec, parts, packed) && parts != []
    requires Concat(parts) == Staged(data, item)
    requires |data| < U64_LIMIT && |Concat(packed)| < U64_LIMIT
    ensures Decode(engine, Concat(packed), Compression(codec, |data|, item, PieceSizes(parts, packed))) == Ok(data)
  {
    PiecesDecode(engine, codec, parts, packed);
    if item.Some? {
      ShuffleInverts(data, item.value);
    }
  }

  // -------------------------------------------------- preparing a block

  datatype WritableCodec = WriteZstd | WriteZlib | WriteLz4

  function AsCodec(codec: WritableCodec): Codec
  {
    match codec
    case WriteZstd => Zstd
    case WriteZlib => Zlib
    case WriteLz4 => Lz4
  }

  function CodecInputLimit(codec: WritableCodec): nat
  {
    match codec
    case WriteZlib => U32_LIMIT - 1
    case WriteLz4 => 0x7E00_0000
    case WriteZstd => U64_LIMIT - 1
  }

  datatype CompressionRequest = CompressionRequest(codec: WritableCodec, shuffleItemSize: Option<u64>)

  datatype BlockOptions = BlockOptions(compression: Option<CompressionRequest>, checksum: Option<ChecksumAlgorithm>)

  datatype StoredBlock = StoredBlock(bytes: seq<byte>, compression: Option<Compression>, checksum: Option<Checksum>)

  /** An item size of one asks for no shuffling, since that is not a form the attribute stores. */
  function EffectiveItem(item: Option<u64>): Option<u64>
  {
    if item.Some? && item.value > 1 then item else None
  }

  /** The stored bytes and how they were compressed, if compressing made the block smaller. */
  function CompressBlock(engine: Engine, data: seq<byte>,
      request: CompressionRequest): Result<(seq<byte>, Option<Compression>)>
    requires |data| < U64_LIMIT
  {
    var item := EffectiveItem(request.shuffleItemSize);
    var staged := Staged(data, item);
    if |staged| > CodecInputLimit(request.codec) then Err(Unsupported)
    else
      var compressed :- engine.compress(staged, AsCodec(request.codec));
      if |compressed| >= |data| then Ok((data, None))
      else Ok((compressed, Some(Compression(AsCodec(request.codec), |data|, item, []))))
  }

  function Prepare(engine: Engine, data: seq<byte>, options: BlockOptions): Result<StoredBlock>
    requires |data| < U64_LIMIT
  {
    var (bytes, compression) :- match options.compression
      case None => Ok((data, None))
      case Some(request) => CompressBlock(engine, data, request);
    var checksum := match options.checksum
      case None => None
      case Some(algorithm) => Some(Checksum(algorithm, engine.hash(bytes, algorithm)));
    Ok(StoredBlock(bytes, compression, checksum))
  }

  /** What a reader makes of a stored block's bytes. */
  function ReadBack(engine: Engine, stored: seq<byte>, compression: Option<Compression>): Result<seq<byte>>
  {
    match compression
    case None => Ok(stored)
    case Some(c) => Decode(engine, stored, c)
  }

  /** A prepared block decodes to the data it was prepared from, is no larger, and carries its own checksum. */
  lemma {:induction false} PreparedReadsBack(engine: Engine, data: seq<byte>, options: BlockOptions)
    requires Lawful(engine) && |data| < U64_LIMIT
    ensures var prepared := Prepare(engine, data, options);
      prepared.Ok? ==>
        var b := prepared.value;
        ReadBack(engine, b.bytes, b.compression) == Ok(data)
        && |b.bytes| <= |data|
        && (b.checksum.Some? <==> options.checksum.Some?)
        && (b.checksum.Some? ==> b.checksum.value.algorithm == options.checksum.value
                                 && b.checksum.value.digest == engine.hash(b.bytes, b.checksum.value.algorithm)
                                 && |b.checksum.value.digest| == DigestLen(b.checksum.value.algorithm))
        && (b.compression.Some? ==> b.compression.value.subblocks == [] && !b.compression.value.codec.Other?)
  {
    if options.compression.Some? {
      var item := EffectiveItem(options.compression.value.shuffleItemSize);
      var staged, codec := Staged(data, item), AsCodec(options.compression.value.codec);
      if item.Some? {
        ShuffleInverts(data, item.value);
      }
      if engine.compress(staged, codec).Ok? {
        var stored := engine.compress(staged, codec).value;
        assert engine.decompress(stored, codec, |staged|) == Ok(staged);
        assert |staged| == |data|;
      }
    }
  }

  /**
    Which form a block is stored in: compressed exactly when that was asked for and is smaller, and
    preparing fails exactly when the codec cannot take the data or fails on it.
   */
  lemma {:induction false} PreparedExactly(engine: Engine, data: seq<byte>, options: BlockOptions)
    requires |data| < U64_LIMIT
    ensures options.compression.None? ==>
      Prepare(engine, data, options).Ok? && Prepare(engine, data, options).value.bytes == data
    ensures options.compression.Some? ==>
      var request := options.compression.value;
      var packed := engine.compress(Staged(data, EffectiveItem(request.shuffleItemSize)), AsCodec(request.codec));
      (Prepare(engine, data, options).Ok? <==> |data| <= CodecInputLimit(request.codec) && packed.Ok?)
      && (Prepare(engine, data, options).Ok? ==>
            var b := Prepare(engine, data, options).value;
            |b.bytes| == Min(|data|, |packed.value|)
            && (b.compression.Some? <==> |packed.value| < |data|)
            && b.bytes == (if b.compression.Some? then packed.value else data)
            && (b.compression.Some? ==> b.compression.value.shuffleItemSize == EffectiveItem(request.shuffleItemSize)))
  {
    if options.compression.Some? {
      assert |Staged(data, EffectiveItem(options.compression.value.shuffleItemSize))| == |data|;
    }
  }

  // -------------------------------------------------- limits, codec by codec

  /** The greatest expansion the decoder believes of a codec. */
  ghost predicate HasRatio(codec: Codec, ratio: nat)
  {
    match codec
    case Zlib => ratio == 2048
    case Lz4 => ratio == 512
    case Lz4Hc => ratio == 512
    case _ => ratio == 65_536
  }

  /** Exactly which sizes a decoder believes: any up to a kilobyte, and any that the codec could have packed so. */
  lemma {:induction false} PlausibleExactly(stored: nat, codec: Codec, ratio: nat, size: u64)
    requires HasRatio(codec, ratio)
    ensures size <= Ceiling(stored, codec) <==> size <= 1024 || size <= stored * ratio
  {
  }

  /** The codec a request names, and the most data it takes at once. */
  ghost predicate Requests(codec: WritableCodec, name: string, limit: nat)
  {
    match codec
    case WriteZstd => name == "zstd" && limit == 0xFFFF_FFFF_FFFF_FFFF
    case WriteZlib => name == "zlib" && limit == 0xFFFF_FFFF
    case WriteLz4 => name == "lz4" && limit == 0x7E00_0000
  }

  /**
    Under which name a block is compressed and up to which size, and that it is shuffled exactly if items of more
    than one byte were asked for.
   */
  lemma {:induction false} RequestedExactly(engine: Engine, data: seq<byte>, request: CompressionRequest,
      checksum: Option<ChecksumAlgorithm>, name: string, limit: nat)
    requires |data| < U64_LIMIT && Requests(request.codec, name, limit)
    ensures var r := Prepare(engine, data, BlockOptions(Some(request), checksum));
      (|data| > limit ==> r == Err(Unsupported))
      && (r.Ok? && r.value.compression.Some? ==>
            var c := r.value.compression.value;
            CodecName(c.codec) == name && c.uncompressedSize == |data| && c.subblocks == []
            && (c.shuffleItemSize.Some? <==> request.shuffleItemSize.Some? && request.shuffleItemSize.value > 1)
            && (c.shuffleItemSize.Some? ==> c.shuffleItemSize == request.shuffleItemSize))
  {
    assert |Staged(data, EffectiveItem(request.shuffleItemSize))| == |data|;
  }
}
