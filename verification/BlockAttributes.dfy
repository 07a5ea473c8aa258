/** The `compression` and `checksum` attributes, which say what has been done to a data block. */
module BlockAttributes {
  import opened Primitives
  import opened Text
  import Locations

  // -------------------------------------------------- compression

  datatype Codec = Zlib | Lz4 | Lz4Hc | Zstd | Other(name: string)

  function CodecName(codec: Codec): string
  {
    match codec
    case Zlib => "zlib"
    case Lz4 => "lz4"
    case Lz4Hc => "lz4hc"
    case Zstd => "zstd"
    case Other(name) => name
  }

  function CodecNamed(name: string): Codec
  {
    match name
    case "zlib" => Zlib
    case "lz4" => Lz4
    case "lz4hc" => Lz4Hc
    case "zstd" => Zstd
    case _ => Other(name)
  }

  datatype Compression = Compression(
    codec: Codec, uncompressedSize: u64, shuffleItemSize: Option<u64>, subblocks: seq<(u64, u64)>)

  function ParseSubblock(pair: string): Result<(u64, u64)>
  {
    match SplitOnce(Trim(pair), ',')
    case None => Err(BadAttribute)
    case Some((compressed, uncompressed)) =>
      var c :- ParseU64(Trim(compressed));
      var u :- ParseU64(Trim(uncompressed));
      Ok((c, u))
  }

  function ParseEach(pairs: seq<string>): Result<seq<(u64, u64)>>
  {
    if pairs == [] then Ok([])
    else
      var first :- ParseSubblock(pairs[0]);
      var rest :- ParseEach(pairs[1..]);
      Ok([first] + rest)
  }

  function ParseSubblocks(text: string): Result<seq<(u64, u64)>> { ParseEach(Split(text, ':')) }

  function ParseCompression(text: string): Result<Compression> { CompressionOf(Split(text, ':')) }

  function CompressionOf(fields: seq<string>): Result<Compression>
    requires |fields| > 0
  {
    var (name, shuffled) := match StripSuffix(fields[0], "+sh")
      case Some(name) => (name, true)
      case None => (fields[0], false);
    if |fields| < 2 then Err(BadAttribute)
    else
      var size :- ParseU64(fields[1]);
      var item :-
        if shuffled then
          if |fields| < 3 then Err(BadAttribute) else (var item :- ParseU64(fields[2]); Ok(Some(item)))
        else if |fields| > 2 then Err(BadAttribute)
        else Ok(None);
      if |fields| > 3 then Err(BadAttribute) else Ok(Compression(CodecNamed(name), size, item, []))
  }

  /** The fields of a `compression` attribute. */
  function CompressionFields(c: Compression): seq<string>
  {
    match c.shuffleItemSize
    case None => [CodecName(c.codec), Decimal(c.uncompressedSize)]
    case Some(item) => [CodecName(c.codec) + "+sh", Decimal(c.uncompressedSize), Decimal(item)]
  }

  function CompressionText(c: Compression): string
  {
    match c.shuffleItemSize
    case None => CodecName(c.codec) + ":" + Decimal(c.uncompressedSize)
    case Some(item) => CodecName(c.codec) + "+sh:" + Decimal(c.uncompressedSize) + ":" + Decimal(item)
  }

  /** Whether a codec's name, as this attribute spells it, can be told from everything else it spells. */
  predicate CodecIsSpellable(c: Compression)
  {
    match c.codec
    case Other(name) => ':' !in name && CodecNamed(name).Other? && (c.shuffleItemSize.None? ==> !EndsWith(name, "+sh"))
    case _ => true
  }

  lemma {:induction false} CompressionSplits(c: Compression)
    requires ':' !in CodecName(c.codec)
    ensures Split(CompressionText(c), ':') == CompressionFields(c)
  {
    Locations.DigitRunsAreTight(c.uncompressedSize, 10);
    var fields := CompressionFields(c);
    if c.shuffleItemSize.Some? {
      Locations.DigitRunsAreTight(c.shuffleItemSize.value, 10);
      assert Join(fields[1..], ':') == fields[1] + [':'] + Join(fields[1..][1..], ':');
    }
    assert Join(fields, ':') == CompressionText(c);
    SplitJoin(fields, ':');
  }

  /** No parsed codec has a colon in its name. */
  lemma {:induction false} ParsedCodecHasNoColon(text: string)
    ensures ParseCompression(text).Ok? ==> ':' !in CodecName(ParseCompression(text).value.codec)
  {
    var first := Split(text, ':')[0];
    assert first in Split(text, ':');
    NamedIsName(if EndsWith(first, "+sh") then first[..|first| - 3] else first);
  }

  lemma {:induction false} NamedIsName(name: string)
    ensures CodecName(CodecNamed(name)) == name
  {
  }

  /** A compression attribute reads back as written exactly when its codec's name is spellable. */
  lemma {:induction false} CompressionReadsBackExactly(c: Compression)
    requires c.subblocks == []
    ensures ParseCompression(CompressionText(c)) == Ok(c) <==> CodecIsSpellable(c)
  {
    ParsedCodecHasNoColon(CompressionText(c));
    if ':' !in CodecName(c.codec) {
      CompressionSplits(c);
      FieldsReadBackExactly(c);
    }
  }

  lemma {:induction false} FieldsReadBackExactly(c: Compression)
    requires c.subblocks == [] && ':' !in CodecName(c.codec)
    ensures CompressionOf(CompressionFields(c)) == Ok(c) <==> CodecIsSpellable(c)
  {
    ParsePrintedU64(c.uncompressedSize);
    NameIsSpellable(c.codec);
    if c.shuffleItemSize.Some? {
      ParsePrintedU64(c.shuffleItemSize.value);
      var method' := CodecName(c.codec) + "+sh";
      assert method'[|method'| - 3..] == "+sh" && method'[..|method'| - 3] == CodecName(c.codec);
    }
  }

  lemma {:induction false} NameIsSpellable(codec: Codec)
    ensures CodecNamed(CodecName(codec)) == codec <==> (codec.Other? ==> CodecNamed(codec.name).Other?)
    ensures !codec.Other? ==> !EndsWith(CodecName(codec), "+sh")
  {
  }

  // -------------------------------------------------- checksum

  datatype ChecksumAlgorithm = Sha1 | Sha256 | Sha512 | Sha3256 | Sha3512

  function AlgorithmName(a: ChecksumAlgorithm): string
  {
    match a
    case Sha1 => "sha-1"
    case Sha256 => "sha-256"
    case Sha512 => "sha-512"
    case Sha3256 => "sha3-256"
    case Sha3512 => "sha3-512"
  }

  function AlgorithmNamed(name: string): Result<ChecksumAlgorithm>
  {
    match name
    case "sha-1" => Ok(Sha1)
    case "sha1" => Ok(Sha1)
    case "sha-256" => Ok(Sha256)
    case "sha256" => Ok(Sha256)
    case "sha-512" => Ok(Sha512)
    case "sha512" => Ok(Sha512)
    case "sha3-256" => Ok(Sha3256)
    case "sha3-512" => Ok(Sha3512)
    case _ => Err(Unsupported)
  }

  function DigestLen(a: ChecksumAlgorithm): nat
  {
    match a
    case Sha1 => 20
    case Sha256 => 32
    case Sha3256 => 32
    case Sha512 => 64
    case Sha3512 => 64
  }

  datatype Checksum = Checksum(algorithm: ChecksumAlgorithm, digest: seq<byte>)

  function HexText(bytes: seq<byte>): (s: string)
    ensures |s| == 2 * |bytes|
  {
    if bytes == [] then "" else [DigitChar(bytes[0] / 16), DigitChar(bytes[0] % 16)] + HexText(bytes[1..])
  }

  /** Pairs of digits in either case; nothing when the length is odd or a character is no digit. */
  function DecodeHex(s: string): Option<seq<byte>>
    decreases |s|
  {
    if s == [] then Some([])
    else if |s| == 1 then None
    else
      var high :- DigitValue(s[0]);
      var low :- DigitValue(s[1]);
      assert high < 16 && low < 16;
      var rest :- DecodeHex(s[2..]);
      Some([high * 16 + low] + rest)
  }

  function LowerChar(c: char): char { if 'A' <= c <= 'Z' then c - 'A' + 'a' else c }

  function LowerCase(s: string): (lower: string)
    ensures |lower| == |s|
    ensures forall i :: 0 <= i < |s| ==> lower[i] == LowerChar(s[i])
  {
    if s == [] then [] else [LowerChar(s[0])] + LowerCase(s[1..])
  }

  lemma {:induction false} DigitPrintsBack(c: char)
    requires DigitValue(c).Some?
    ensures DigitValue(c).value < 16 && DigitChar(DigitValue(c).value) == LowerChar(c)
  {
  }

  lemma {:induction false} HexReadsBack(bytes: seq<byte>)
    ensures DecodeHex(HexText(bytes)) == Some(bytes)
  {
    if bytes != [] {
      DigitRoundTrip(bytes[0] / 16);
      DigitRoundTrip(bytes[0] % 16);
      HexReadsBack(bytes[1..]);
      assert HexText(bytes)[2..] == HexText(bytes[1..]);
      assert bytes == [bytes[0]] + bytes[1..];
    }
  }

  /** Whatever decodes is the printed form of what it decodes to, up to the case of its digits. */
  lemma {:induction false} HexPrintsBack(s: string)
    requires DecodeHex(s).Some?
    ensures HexText(DecodeHex(s).value) == LowerCase(s)
    decreases |s|
  {
    if s != [] {
      var high, low := DigitValue(s[0]).value, DigitValue(s[1]).value;
      DigitPrintsBack(s[0]);
      DigitPrintsBack(s[1]);
      HexPrintsBack(s[2..]);
      var bytes := [(high * 16 + low) as byte] + DecodeHex(s[2..]).value;
      assert bytes[1..] == DecodeHex(s[2..]).value;
      assert (high * 16 + low) / 16 == high && (high * 16 + low) % 16 == low;
      assert HexText(bytes) == [LowerChar(s[0]), LowerChar(s[1])] + LowerCase(s[2..]);
    }
  }

  function ChecksumText(c: Checksum): string
  {
    AlgorithmName(c.algorithm) + ":" + HexText(c.digest)
  }

  function ParseChecksum(text: string): Result<Checksum>
  {
    match SplitOnce(text, ':')
    case None => Err(BadAttribute)
    case Some((name, digits)) =>
      var algorithm :- AlgorithmNamed(name);
      if |digits| != DigestLen(algorithm) * 2 then Err(BadAttribute)
      else
        match DecodeHex(digits)
        case None => Err(BadAttribute)
        case Some(digest) => Ok(Checksum(algorithm, digest))
  }

  /** A checksum attribute reads back as written exactly when the digest has its algorithm's length. */
  lemma {:induction false} ChecksumReadsBackExactly(c: Checksum)
    ensures ParseChecksum(ChecksumText(c)) == if |c.digest| == DigestLen(c.algorithm) then Ok(c) else Err(BadAttribute)
  {
    AlgorithmReads(c.algorithm);
    SplitOnceAt(AlgorithmName(c.algorithm), ':', HexText(c.digest));
    HexReadsBack(c.digest);
  }

  lemma {:induction false} AlgorithmReads(a: ChecksumAlgorithm)
    ensures ':' !in AlgorithmName(a) && AlgorithmNamed(AlgorithmName(a)) == Ok(a)
  {
  }
}
