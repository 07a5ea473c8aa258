/** Exactly which texts the block attributes are read from: subblocks, compression and checksum. */
module AttributeGrammar {
  import opened Primitives
  import opened Text
  import XmlText
  import Locations
  import opened BlockAttributes
  import GeometryAttribute

  // -------------------------------------------------- subblocks

  /** A number with white space around it. */
  ghost predicate DenotesNumber(text: string, n: nat)
  {
    exists core :: IsPadded(text, core) && Numbers(core, n)
  }

  /** Two numbers with a comma between them: the bytes a piece takes, and the bytes it gives. */
  ghost predicate DenotesPair(text: string, pair: (u64, u64))
  {
    exists compressed, uncompressed ::
      text == compressed + [','] + uncompressed
      && DenotesNumber(compressed, pair.0) && DenotesNumber(uncompressed, pair.1)
  }

  ghost predicate DenotesPairs(fields: seq<string>, pairs: seq<(u64, u64)>)
  {
    |fields| == |pairs| && forall i :: 0 <= i < |pairs| ==> DenotesPair(fields[i], pairs[i])
  }

  lemma {:induction false} NumberIsTight(text: string, n: nat)
    requires Numbers(text, n)
    ensures text != "" && IsTight(text) && ',' !in text && ':' !in text
  {
    var plus, zeros :| text == NumberText(plus, zeros, n);
    var digits := Decimal(n);
    Locations.DigitRunsAreTight(n, 10);
    assert text[|text| - 1] == digits[|digits| - 1];
    forall c | c in text
      ensures c == '+' || c == '0' || c in digits
    {
    }
  }

  lemma {:induction false} NumberReads(text: string, n: u64)
    ensures DenotesNumber(text, n) <==> ParseU64(Trim(text)) == Ok(n)
  {
    hide Trim;
    hide ParseU64;
    hide IsPadded;
    hide IsTight;
    hide Numbers;
    if ParseU64(Trim(text)) == Ok(n) {
      ParseU64Exactly(Trim(text), n);
      TrimExactly(text, Trim(text));
    }
    forall core | IsPadded(text, core) && Numbers(core, n)
      ensures ParseU64(Trim(text)) == Ok(n)
    {
      NumberIsTight(core, n);
      TrimExactly(text, core);
      ParseU64Exactly(core, n);
    }
  }

  lemma {:induction false} NumberHasNoMark(text: string, n: nat)
    requires DenotesNumber(text, n)
    ensures ',' !in text && ':' !in text
  {
    var core :| IsPadded(text, core) && Numbers(core, n);
    var before, after :| AllWhite(before) && AllWhite(after) && text == before + core + after;
    NumberIsTight(core, n);
  }

  lemma {:induction false} WhiteConcat(a: string, b: string)
    requires AllWhite(a) && AllWhite(b)
    ensures AllWhite(a + b)
  {
  }

  lemma {:induction false} PadAgain(before: string, text: string, after: string, core: string)
    requires AllWhite(before) && AllWhite(after) && IsPadded(text, core)
    ensures IsPadded(before + text + after, core)
  {
    var b, a :| AllWhite(b) && AllWhite(a) && text == b + core + a;
    WhiteConcat(before, b);
    WhiteConcat(a, after);
    hide AllWhite;
    assert before + (b + core + a) + after == (before + b) + core + (a + after);
  }

  /** White space around a number says nothing more. */
  lemma {:induction false} PadNumber(before: string, text: string, after: string, n: nat)
    requires AllWhite(before) && AllWhite(after) && DenotesNumber(text, n)
    ensures DenotesNumber(before + text + after, n)
  {
    hide AllWhite;
    hide Numbers;
    hide IsPadded;
    var core :| IsPadded(text, core) && Numbers(core, n);
    PadAgain(before, text, after, core);
  }

  lemma {:induction false} PairDenotes(text: string, pair: (u64, u64))
    requires ParseSubblock(text) == Ok(pair)
    ensures DenotesPair(text, pair)
  {
    hide Trim;
    hide ParseU64;
    hide SplitOnce;
    hide DenotesNumber;
    var (left, right) := SplitOnce(Trim(text), ',').value;
    SplitOnceExactly(Trim(text), ',', left, right);
    NumberReads(left, pair.0);
    NumberReads(right, pair.1);
    TrimExactly(text, Trim(text));
    var before, after :| AllWhite(before) && AllWhite(after) && text == before + Trim(text) + after;
    PadNumber(before, left, "", pair.0);
    PadNumber("", right, after, pair.1);
    assert text == (before + left + "") + [','] + ("" + right + after);
  }

  lemma {:induction false} TrimAround(b: string, left: string, right: string, f: string)
    requires AllWhite(b) && AllWhite(f) && left != "" && right != ""
    requires !IsWhiteSpace(left[0]) && !EndsInWhiteSpace(right)
    ensures Trim((b + left) + [','] + (right + f)) == left + [','] + right
  {
    hide Trim;
    hide AllWhite;
    var core := left + [','] + right;
    assert core[0] == left[0] && core[|core| - 1] == right[|right| - 1];
    assert (b + left) + [','] + (right + f) == b + core + f;
    TrimExactly(b + core + f, core);
  }

  lemma {:induction false} HalfPadded(before: string, core: string, after: string)
    requires AllWhite(before) && AllWhite(after)
    ensures IsPadded(core + after, core) && IsPadded(before + core, core)
  {
    assert AllWhite("");
    hide AllWhite;
    assert core + after == "" + core + after && before + core == before + core + "";
  }

  /** A number without the white space before it. */
  lemma {:induction false} NumberFrom(text: string, n: nat) returns (before: string, rest: string)
    requires DenotesNumber(text, n)
    ensures AllWhite(before) && text == before + rest && DenotesNumber(rest, n)
    ensures rest != "" && !IsWhiteSpace(rest[0])
  {
    hide IsWhiteSpace;
    hide Numbers;
    var core :| IsPadded(text, core) && Numbers(core, n);
    var after;
    before, after :| AllWhite(before) && AllWhite(after) && text == before + core + after;
    hide AllWhite;
    NumberIsTight(core, n);
    HalfPadded(before, core, after);
    hide IsPadded;
    rest := core + after;
    assert text == before + rest;
  }

  /** A number without the white space after it. */
  lemma {:induction false} NumberUpTo(text: string, n: nat) returns (rest: string, after: string)
    requires DenotesNumber(text, n)
    ensures AllWhite(after) && text == rest + after && DenotesNumber(rest, n)
    ensures rest != "" && !EndsInWhiteSpace(rest)
  {
    hide IsWhiteSpace;
    hide Numbers;
    var core :| IsPadded(text, core) && Numbers(core, n);
    var before;
    before, after :| AllWhite(before) && AllWhite(after) && text == before + core + after;
    hide AllWhite;
    NumberIsTight(core, n);
    HalfPadded(before, core, after);
    hide IsPadded;
    rest := before + core;
  }

  /** What is left of a pair once trimmed. */
  lemma {:induction false} PairTrimmed(text: string, pair: (u64, u64)) returns (left: string, right: string)
    requires DenotesPair(text, pair)
    ensures Trim(text) == left + [','] + right && ',' !in left
    ensures DenotesNumber(left, pair.0) && DenotesNumber(right, pair.1)
  {
    hide Trim;
    hide AllWhite;
    hide DenotesNumber;
    var x, y :| text == x + [','] + y && DenotesNumber(x, pair.0) && DenotesNumber(y, pair.1);
    var b, f;
    b, left := NumberFrom(x, pair.0);
    right, f := NumberUpTo(y, pair.1);
    NumberHasNoMark(left, pair.0);
    TrimAround(b, left, right, f);
  }

  lemma {:induction false} PairExactly(text: string, pair: (u64, u64))
    ensures ParseSubblock(text) == Ok(pair) <==> DenotesPair(text, pair)
    ensures ParseSubblock(text).Err? ==> ParseSubblock(text) == Err(BadAttribute)
  {
    hide Trim;
    hide SplitOnce;
    hide DenotesPair;
    hide DenotesNumber;
    if ParseSubblock(text) == Ok(pair) {
      PairDenotes(text, pair);
    }
    if DenotesPair(text, pair) {
      var left, right := PairTrimmed(text, pair);
      SplitOnceExactly(Trim(text), ',', left, right);
      NumberReads(left, pair.0);
      NumberReads(right, pair.1);
    }
  }

  lemma {:induction false} PairHasNoColon(text: string, pair: (u64, u64))
    requires DenotesPair(text, pair)
    ensures ':' !in text
  {
    var x, y :| text == x + [','] + y && DenotesNumber(x, pair.0) && DenotesNumber(y, pair.1);
    NumberHasNoMark(x, pair.0);
    NumberHasNoMark(y, pair.1);
  }

  lemma {:induction false} EachExactly(fields: seq<string>, pairs: seq<(u64, u64)>)
    ensures ParseEach(fields) == Ok(pairs) <==> DenotesPairs(fields, pairs)
    ensures ParseEach(fields).Err? ==> ParseEach(fields) == Err(BadAttribute)
  {
    hide ParseSubblock;
    hide DenotesPair;
    if fields != [] {
      var rest := if pairs == [] then [] else pairs[1..];
      EachExactly(fields[1..], rest);
      var first := ParseSubblock(fields[0]);
      PairExactly(fields[0], if pairs == [] then (0, 0) else pairs[0]);
      if pairs != [] {
        assert pairs == [pairs[0]] + rest;
        assert DenotesPairs(fields, pairs) <==> DenotesPair(fields[0], pairs[0]) && DenotesPairs(fields[1..], rest);
      }
      if ParseEach(fields[1..]).Ok? {
        EachExactly(fields[1..], ParseEach(fields[1..]).value);
      }
    }
  }

  /**
    Exactly which texts are read as subblocks, and as which: pairs with colons between them, at least one,
    each two numbers with a comma between them, and white space around any number. Every other is refused.
   */
  lemma {:induction false} SubblocksExactly(text: string, pairs: seq<(u64, u64)>)
    ensures ParseSubblocks(text) == Ok(pairs) <==>
      exists fields :: |fields| > 0 && text == Join(fields, ':') && DenotesPairs(fields, pairs)
    ensures ParseSubblocks(text).Err? ==> ParseSubblocks(text) == Err(BadAttribute)
  {
    hide ParseEach;
    hide DenotesPair;
    var fields := Split(text, ':');
    JoinOfSplit(text, ':');
    EachExactly(fields, pairs);
    forall other | |other| > 0 && text == Join(other, ':') && DenotesPairs(other, pairs)
      ensures other == fields
    {
      forall f | f in other
        ensures ':' !in f
      {
        var i :| 0 <= i < |other| && other[i] == f;
        PairHasNoColon(f, pairs[i]);
      }
      SplitJoin(other, ':');
    }
  }

  /** Subblocks as they are usually spelled. */
  function SubblockTexts(pairs: seq<(u64, u64)>): (fields: seq<string>)
    ensures |fields| == |pairs|
  {
    seq(|pairs|, i requires 0 <= i < |pairs| => Decimal(pairs[i].0) + "," + Decimal(pairs[i].1))
  }

  /** Those are read for the same pairs in the same order. */
  lemma {:induction false} SubblocksReadBack(pairs: seq<(u64, u64)>)
    requires pairs != []
    ensures ParseSubblocks(Join(SubblockTexts(pairs), ':')) == Ok(pairs)
  {
    hide Decimal;
    var fields := SubblockTexts(pairs);
    forall i | 0 <= i < |pairs|
      ensures DenotesPair(fields[i], pairs[i])
    {
      PlainNumber(pairs[i].0);
      PlainNumber(pairs[i].1);
      assert fields[i] == Decimal(pairs[i].0) + [','] + Decimal(pairs[i].1);
    }
    SubblocksExactly(Join(fields, ':'), pairs);
  }

  lemma {:induction false} PlainNumber(n: nat)
    ensures Numbers(Decimal(n), n) && DenotesNumber(Decimal(n), n)
  {
    assert Decimal(n) == NumberText(false, 0, n);
    assert Decimal(n) == "" + Decimal(n) + "" && AllWhite("");
    assert IsPadded(Decimal(n), Decimal(n));
  }

  // -------------------------------------------------- compression

  /** The codecs the format names, and any other by its own name. */
  ghost predicate NamesCodec(name: string, codec: Codec)
  {
    match codec
    case Zlib => name == "zlib"
    case Lz4 => name == "lz4"
    case Lz4Hc => name == "lz4hc"
    case Zstd => name == "zstd"
    case Other(other) => name == other && name !in {"zlib", "lz4", "lz4hc", "zstd"}
  }

  /** A codec's name and the number of bytes it gives; after a name marked as shuffled, the item size too. */
  ghost predicate DenotesFields(fields: seq<string>, c: Compression)
  {
    c.subblocks == [] && |fields| >= 2 && Numbers(fields[1], c.uncompressedSize)
    && match c.shuffleItemSize
       case None => |fields| == 2 && !EndsWith(fields[0], "+sh") && NamesCodec(fields[0], c.codec)
       case Some(item) => |fields| == 3 && Numbers(fields[2], item)
                          && exists name :: fields[0] == name + "+sh" && NamesCodec(name, c.codec)
  }

  lemma {:induction false} NamedExactly(name: string, codec: Codec)
    ensures CodecNamed(name) == codec <==> NamesCodec(name, codec)
  {
  }

  lemma {:induction false} SuffixExactly(text: string, name: string)
    ensures StripSuffix(text, "+sh") == Some(name) <==> text == name + "+sh"
    ensures StripSuffix(text, "+sh") == None <==> !EndsWith(text, "+sh")
  {
    if EndsWith(text, "+sh") {
      assert text == text[..|text| - 3] + text[|text| - 3..];
    }
    assert (name + "+sh")[|name|..] == "+sh" && (name + "+sh")[..|name|] == name;
  }

  lemma {:induction false} FieldsExactly(fields: seq<string>, c: Compression)
    requires |fields| > 0
    ensures CompressionOf(fields) == Ok(c) <==> DenotesFields(fields, c)
    ensures CompressionOf(fields).Err? ==> CompressionOf(fields) == Err(BadAttribute)
  {
    hide ParseU64;
    hide Numbers;
    hide CodecNamed;
    hide NamesCodec;
    hide EndsWith;
    hide StripSuffix;
    var stripped := StripSuffix(fields[0], "+sh");
    var name := stripped.GetOr(fields[0]);
    SuffixExactly(fields[0], name);
    NamedExactly(name, c.codec);
    forall other | fields[0] == other + "+sh"
      ensures stripped == Some(other)
    {
      SuffixExactly(fields[0], other);
    }
    if |fields| >= 2 {
      ParseU64Exactly(fields[1], c.uncompressedSize);
    }
    if |fields| >= 3 {
      ParseU64Exactly(fields[2], c.shuffleItemSize.GetOr(0));
    }
  }

  /** Exactly which texts are read as a `compression` attribute, and as which. Every other is refused. */
  lemma {:induction false} CompressionExactly(text: string, c: Compression)
    ensures ParseCompression(text) == Ok(c) <==>
      exists fields :: |fields| > 0 && text == Join(fields, ':') && (forall f <- fields :: ':' !in f)
                       && DenotesFields(fields, c)
    ensures ParseCompression(text).Err? ==> ParseCompression(text) == Err(BadAttribute)
  {
    hide DenotesFields;
    hide CompressionOf;
    JoinOfSplit(text, ':');
    FieldsExactly(Split(text, ':'), c);
    forall fields | |fields| > 0 && text == Join(fields, ':') && forall f <- fields :: ':' !in f
      ensures fields == Split(text, ':')
    {
      SplitJoin(fields, ':');
    }
  }

  // -------------------------------------------------- checksum

  /** The digests the format names, the other spellings some have, and the bytes each takes. */
  ghost predicate NamesDigest(name: string, a: ChecksumAlgorithm, bytes: nat)
  {
    match a
    case Sha1 => (name == "sha-1" || name == "sha1") && 8 * bytes == 160
    case Sha256 => (name == "sha-256" || name == "sha256") && 8 * bytes == 256
    case Sha512 => (name == "sha-512" || name == "sha512") && 8 * bytes == 512
    case Sha3256 => name == "sha3-256" && 8 * bytes == 256
    case Sha3512 => name == "sha3-512" && 8 * bytes == 512
  }

  lemma {:induction false} AlgorithmExactly(name: string, a: ChecksumAlgorithm)
    ensures AlgorithmNamed(name) == Ok(a) <==> NamesDigest(name, a, DigestLen(a))
    ensures AlgorithmNamed(name).Err? ==> AlgorithmNamed(name) == Err(Unsupported)
    ensures NamesDigest(name, a, DigestLen(a)) ==> ':' !in name
  {
  }

  lemma {:induction false} LengthOfDigest(name: string, a: ChecksumAlgorithm, bytes: nat)
    requires NamesDigest(name, a, bytes)
    ensures DigestLen(a) == bytes
  {
  }

  /** Text decodes as hexadecimal exactly when it spells the bytes, in digits of either case. */
  lemma {:induction false} HexExactly(text: string, bytes: seq<byte>)
    ensures DecodeHex(text) == Some(bytes) <==> LowerCase(text) == HexText(bytes)
    decreases |text|
  {
    if DecodeHex(text).Some? {
      HexPrintsBack(text);
    }
    if LowerCase(text) == HexText(bytes) && bytes != [] {
      var low := LowerCase(text);
      assert low[0] == DigitChar(bytes[0] / 16) && low[1] == DigitChar(bytes[0] % 16);
      LowerDigit(text[0], bytes[0] / 16);
      LowerDigit(text[1], bytes[0] % 16);
      assert LowerCase(text[2..]) == low[2..] == HexText(bytes[1..]);
      HexExactly(text[2..], bytes[1..]);
      assert bytes == [bytes[0]] + bytes[1..];
    } else if bytes == [] {
      assert LowerCase(text) == "" <==> text == "";
    }
  }

  lemma {:induction false} LowerDigit(c: char, d: nat)
    requires d < 16 && LowerChar(c) == DigitChar(d)
    ensures DigitValue(c) == Some(d)
  {
  }

  /** Which texts decode at all: an even number of characters, each a digit. */
  lemma {:induction false} HexDecodesExactly(text: string)
    ensures DecodeHex(text).Some? <==> |text| % 2 == 0 && forall c <- text :: DigitValue(c).Some?
    decreases |text|
  {
    if |text| >= 2 {
      HexDecodesExactly(text[2..]);
      assert text == [text[0], text[1]] + text[2..];
    }
  }

  /** A name, a colon and the digest in hexadecimal. */
  ghost predicate DenotesChecksum(text: string, c: Checksum)
  {
    exists name, digits ::
      text == name + [':'] + digits && NamesDigest(name, c.algorithm, |c.digest|)
      && LowerCase(digits) == HexText(c.digest)
  }

  /** Exactly which texts are read as a `checksum` attribute, and as which. */
  lemma {:induction false} ChecksumExactly(text: string, c: Checksum)
    ensures ParseChecksum(text) == Ok(c) <==> DenotesChecksum(text, c)
  {
    hide NamesDigest;
    hide AlgorithmNamed;
    hide DigestLen;
    hide DecodeHex;
    if ParseChecksum(text) == Ok(c) {
      var (name, digits) := SplitOnce(text, ':').value;
      SplitOnceExactly(text, ':', name, digits);
      AlgorithmExactly(name, c.algorithm);
      HexExactly(digits, c.digest);
    }
    if DenotesChecksum(text, c) {
      var name, digits :| text == name + [':'] + digits && NamesDigest(name, c.algorithm, |c.digest|)
        && LowerCase(digits) == HexText(c.digest);
      LengthOfDigest(name, c.algorithm, |c.digest|);
      AlgorithmExactly(name, c.algorithm);
      SplitOnceExactly(text, ':', name, digits);
      HexExactly(digits, c.digest);
    }
  }

  // -------------------------------------------------- geometry and block identifiers

  lemma {:induction false} NumbersRead(fields: seq<string>, values: seq<u64>)
    ensures GeometryAttribute.ParseNumbers(fields) == Ok(values) <==>
      |fields| == |values| && forall i :: 0 <= i < |fields| ==> Numbers(fields[i], values[i])
  {
    hide ParseU64;
    hide Numbers;
    if fields != [] {
      var rest := if values == [] then [] else values[1..];
      NumbersRead(fields[1..], rest);
      ParseU64Exactly(fields[0], if values == [] then 0 else values[0]);
      if values != [] {
        assert values == [values[0]] + rest;
        assert forall i :: 0 < i < |fields| ==> fields[i] == fields[1..][i - 1];
      }
    }
  }

  /** Exactly which texts are read as a geometry, and as which: numbers, none of them zero, the last the channels. */
  lemma {:induction false} GeometryExactly(text: string, dimensions: seq<u64>, channels: u64)
    ensures GeometryAttribute.Geometry(text) == Ok((dimensions, channels)) <==>
      dimensions != [] && channels != 0 && 0 !in dimensions
      && exists fields :: |fields| == |dimensions| + 1 && text == Join(fields, ':')
           && forall i :: 0 <= i < |fields| ==> Numbers(fields[i], (dimensions + [channels])[i])
  {
    hide Numbers;
    var values, fields := dimensions + [channels], Split(text, ':');
    GeometryIsNumbers(text, dimensions, channels);
    hide GeometryAttribute.Geometry;
    hide GeometryAttribute.ParseNumbers;
    JoinOfSplit(text, ':');
    NumbersRead(fields, values);
    forall other | |other| == |values| && text == Join(other, ':')
                   && forall i :: 0 <= i < |other| ==> Numbers(other[i], values[i])
      ensures other == fields
    {
      NumbersAreFields(other, values);
    }
  }

  lemma {:induction false} GeometryIsNumbers(text: string, dimensions: seq<u64>, channels: u64)
    ensures GeometryAttribute.Geometry(text) == Ok((dimensions, channels)) <==>
      dimensions != [] && channels != 0 && 0 !in dimensions
      && GeometryAttribute.ParseNumbers(Split(text, ':')) == Ok(dimensions + [channels])
  {
    var numbers := GeometryAttribute.ParseNumbers(Split(text, ':'));
    NumbersRead(Split(text, ':'), if numbers.Ok? then numbers.value else []);
    hide GeometryAttribute.ParseNumbers;
    hide Numbers;
    hide Split;
    if numbers.Ok? && numbers.value != [] {
      var values := numbers.value;
      assert values == values[..|values| - 1] + [values[|values| - 1]];
    }
    assert (dimensions + [channels])[..|dimensions|] == dimensions;
  }

  lemma {:induction false} NumbersAreFields(fields: seq<string>, values: seq<u64>)
    requires |fields| == |values| > 0 && forall i :: 0 <= i < |fields| ==> Numbers(fields[i], values[i])
    ensures Split(Join(fields, ':'), ':') == fields
  {
    forall f | f in fields
      ensures ':' !in f
    {
      var i :| 0 <= i < |fields| && fields[i] == f;
      NumberIsTight(f, values[i]);
    }
    SplitJoin(fields, ':');
  }

  /** Exactly which texts are block identifiers: decimal, or hexadecimal after `0x`. */
  lemma {:induction false} BlockIdExactly(text: string, id: u64)
    ensures Locations.ParseBlockId(text) == Ok(id) <==>
      if |text| >= 2 && text[0] == '0' && (text[1] == 'x' || text[1] == 'X') then XmlText.IsNumeral(text[2..], 16, id)
      else XmlText.IsNumeral(text, 10, id)
  {
    var hex := |text| >= 2 && text[0] == '0' && (text[1] == 'x' || text[1] == 'X');
    assert |text| >= 2 ==> text[..2] == [text[0], text[1]];
    XmlText.NumeralExactly(if hex then text[2..] else text, if hex then 16 else 10, U64_LIMIT - 1, id);
  }
}
