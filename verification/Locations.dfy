/** The `location` attribute, which says where a data block is. */
module Locations {
  import opened Primitives
  import opened Text
  import opened XmlText

  // -------------------------------------------------- location

  datatype TextEncoding = Base64 | Hex

  datatype Location =
    | Inline(encoding: TextEncoding)
    | Embedded(encoding: TextEncoding)
    | Attachment(position: u64, size: u64)
    | Path(locator: string, index: Option<u64>)
    | Url(locator: string, index: Option<u64>)

  const HEADER_DIR_TOKEN := "@header_dir"

  function ParseBlockId(text: string): Result<u64>
  {
    var (digits, radix) :=
      if StartsWith(text, "0x") || StartsWith(text, "0X") then (text[2..], 16) else (text, 10);
    match FromStrRadix(digits, radix, U64_LIMIT - 1)
    case Some(id) => Ok(id)
    case None => Err(BadAttribute)
  }

  /** What follows `path(` or `url(`: a locator up to the last parenthesis, then perhaps an identifier. */
  function ParseLocator(rest: string): Result<(string, Option<u64>)>
  {
    var after := AfterLast(rest, ')');
    if after == 0 then Err(BadAttribute) else LocatorOf(rest[..after - 1], rest[after..])
  }

  function LocatorOf(inside: string, after: string): Result<(string, Option<u64>)>
  {
    var locator, tail := Trim(inside), Trim(after);
    if locator == "" then Err(BadAttribute)
    else if tail == "" then Ok((locator, None))
    else
      match StripPrefix(tail, ":")
      case None => Err(BadAttribute)
      case Some(digits) =>
        var id :- ParseBlockId(Trim(digits));
        Ok((locator, Some(id)))
  }

  function EncodingName(encoding: TextEncoding): string { if encoding == Base64 then "base64" else "hex" }

  /** A location by its scheme, and by what follows the first colon if there is one. */
  function ParseScheme(scheme: string, rest: Option<string>): Result<Location>
  {
    match scheme
    case "embedded" => if rest.Some? then Err(BadAttribute) else Ok(Embedded(Base64))
    case "inline" =>
      if rest == Some(EncodingName(Base64)) then Ok(Inline(Base64))
      else if rest == Some(EncodingName(Hex)) then Ok(Inline(Hex))
      else Err(BadAttribute)
    case "attachment" => ParsePositionAndSize(rest.GetOr(""))
    case _ => Err(BadAttribute)
  }

  function ParsePositionAndSize(rest: string): Result<Location>
  {
    match SplitOnce(rest, ':')
    case None => Err(BadAttribute)
    case Some((position, size)) =>
      var p :- ParseU64(position);
      var s :- ParseU64(size);
      Ok(Attachment(p, s))
  }

  function ParseFields(text: string): Result<Location>
  {
    match SplitOnce(text, ':')
    case Some((scheme, rest)) => ParseScheme(scheme, Some(rest))
    case None => ParseScheme(text, None)
  }

  function ParseLocation(raw: string): Result<Location>
  {
    var text := Trim(raw);
    match StripPrefix(text, "path(")
    case Some(rest) => (var (locator, index) :- ParseLocator(rest); Ok(Path(locator, index)))
    case None =>
      match StripPrefix(text, "url(")
      case Some(rest) => (var (locator, index) :- ParseLocator(rest); Ok(Url(locator, index)))
      case None => ParseFields(text)
  }

  // -------------------------------------------------- the grammar

  /** What a reader may take a locator to say, once nothing surrounds it. */
  ghost predicate Denotes(text: string, location: Location)
  {
    match location
    case Embedded(encoding) => encoding == Base64 && text == "embedded"
    case Inline(encoding) => text == "inline" + ":" + EncodingName(encoding)
    case Attachment(position, size) =>
      exists rest :: text == "attachment" + ":" + rest && DenotesNumbers(rest, position, size)
    case Path(locator, index) => Parenthesised(text, "path(", locator, index)
    case Url(locator, index) => Parenthesised(text, "url(", locator, index)
  }

  ghost predicate Parenthesised(text: string, open: string, locator: string, index: Option<u64>)
  {
    exists rest :: text == open + rest && DenotesLocator(rest, locator, index)
  }

  ghost predicate DenotesNumbers(rest: string, position: u64, size: u64)
  {
    exists a, b :: rest == a + ":" + b && ':' !in a && ParseU64(a) == Ok(position) && ParseU64(b) == Ok(size)
  }

  /** The locator runs to the last parenthesis; after it comes nothing, or a colon and an identifier. */
  ghost predicate DenotesLocator(rest: string, locator: string, index: Option<u64>)
  {
    exists inside, tail :: rest == inside + ")" + tail && ')' !in tail && locator == Trim(inside) && locator != ""
      && DenotesIndex(Trim(tail), index)
  }

  ghost predicate DenotesIndex(tail: string, index: Option<u64>)
  {
    match index
    case None => tail == ""
    case Some(id) => exists digits :: tail == ":" + digits && ParseBlockId(Trim(digits)) == Ok(id)
  }

  lemma {:induction false} IndexExactly(tail: string, index: Option<u64>)
    ensures DenotesIndex(tail, index) <==>
      if tail == "" then index == None
      else StripPrefix(tail, ":").Some? && index.Some? && ParseBlockId(Trim(tail[1..])) == Ok(index.value)
  {
    hide ParseBlockId;
    hide Trim;
    if tail != "" {
      assert tail[0] == ':' ==> tail == ":" + tail[1..];
      assert tail[..1] == [tail[0]];
    }
    if index.Some? {
      forall digits | tail == ":" + digits
        ensures digits == tail[1..]
      {
      }
    }
  }

  /** A parsed locator and identifier are these. */
  ghost predicate Gives(r: Result<(string, Option<u64>)>, locator: string, index: Option<u64>)
  {
    r.Ok? && r.value.0 == locator && r.value.1 == index
  }

  lemma {:induction false} HalvesExactly(inside: string, after: string, locator: string, index: Option<u64>)
    ensures Gives(LocatorOf(inside, after), locator, index) <==>
      locator == Trim(inside) && locator != "" && DenotesIndex(Trim(after), index)
  {
    hide ParseBlockId;
    hide Trim;
    IndexExactly(Trim(after), index);
  }

  lemma {:induction false} LocatorExactly(rest: string, locator: string, index: Option<u64>)
    ensures Gives(ParseLocator(rest), locator, index) <==> DenotesLocator(rest, locator, index)
  {
    hide ParseLocator;
    hide Gives;
    hide DenotesIndex;
    hide Trim;
    if Gives(ParseLocator(rest), locator, index) {
      GivenDenotes(rest, locator, index);
    }
    if DenotesLocator(rest, locator, index) {
      var inside, tail :| rest == inside + ")" + tail && ')' !in tail && locator == Trim(inside) && locator != ""
        && DenotesIndex(Trim(tail), index);
      DenotedGives(inside, tail, locator, index);
    }
  }

  lemma {:induction false} GivenDenotes(rest: string, locator: string, index: Option<u64>)
    requires Gives(ParseLocator(rest), locator, index)
    ensures DenotesLocator(rest, locator, index)
  {
    hide LocatorOf;
    hide DenotesIndex;
    hide Trim;
    var after := AfterLast(rest, ')');
    var inside, tail := rest[..after - 1], rest[after..];
    assert rest == inside + ")" + tail && ')' !in tail;
    HalvesExactly(inside, tail, locator, index);
  }

  lemma {:induction false} DenotedGives(inside: string, tail: string, locator: string, index: Option<u64>)
    requires ')' !in tail && locator == Trim(inside) && locator != "" && DenotesIndex(Trim(tail), index)
    ensures Gives(ParseLocator(inside + ")" + tail), locator, index)
  {
    hide LocatorOf;
    hide DenotesIndex;
    hide Trim;
    hide Gives;
    var rest := inside + ")" + tail;
    AfterLastUnique(inside, ')', tail);
    assert rest[..|inside|] == inside && rest[|inside| + 1..] == tail;
    HalvesExactly(inside, tail, locator, index);
  }

  lemma {:induction false} NumbersExactly(rest: string, position: u64, size: u64)
    ensures DenotesNumbers(rest, position, size) <==> ParsePositionAndSize(rest) == Ok(Attachment(position, size))
  {
    hide ParseU64;
    hide SplitOnce;
    if SplitOnce(rest, ':').Some? {
      var (a, b) := SplitOnce(rest, ':').value;
      SplitOnceExactly(rest, ':', a, b);
    }
    forall a, b | rest == a + ":" + b && ':' !in a
      ensures SplitOnce(rest, ':') == Some((a, b))
    {
      SplitOnceExactly(rest, ':', a, b);
    }
  }

  /** Which scheme a location without parentheses must have had, and what had to follow it. */
  lemma {:induction false} SchemeExactly(scheme: string, rest: Option<string>, location: Location)
    ensures ParseScheme(scheme, rest) == Ok(location) <==>
      match location
      case Embedded(encoding) => encoding == Base64 && scheme == "embedded" && rest == None
      case Inline(encoding) => scheme == "inline" && rest == Some(EncodingName(encoding))
      case Attachment(_, _) => scheme == "attachment" && ParsePositionAndSize(rest.GetOr("")) == Ok(location)
      case _ => false
  {
    hide SplitOnce;
    hide ParseU64;
  }

  lemma {:induction false} NothingSplits(position: u64, size: u64)
    ensures ParsePositionAndSize("") != Ok(Attachment(position, size))
  {
    hide ParseU64;
  }

  /** The colon after a scheme is the first one. */
  lemma {:induction false} SchemeSplits(text: string, scheme: string, rest: string)
    requires ':' !in scheme
    ensures SplitOnce(text, ':') == Some((scheme, rest)) <==> text == scheme + ":" + rest
  {
    SplitOnceExactly(text, ':', scheme, rest);
  }

  lemma {:induction false} Unsplit(text: string)
    ensures SplitOnce(text, ':').None? <==> ':' !in text
  {
  }

  lemma {:induction false} EmbeddedExactly(text: string, encoding: TextEncoding)
    ensures ParseFields(text) == Ok(Embedded(encoding)) <==> encoding == Base64 && text == "embedded"
  {
    hide SplitOnce;
    hide ParseScheme;
    Unsplit(text);
    SchemeExactly(text, None, Embedded(encoding));
    if SplitOnce(text, ':').Some? {
      var (scheme, rest) := SplitOnce(text, ':').value;
      SchemeExactly(scheme, Some(rest), Embedded(encoding));
    }
  }

  lemma {:induction false} InlineExactly(text: string, encoding: TextEncoding)
    ensures ParseFields(text) == Ok(Inline(encoding)) <==> text == "inline" + ":" + EncodingName(encoding)
  {
    hide SplitOnce;
    hide ParseScheme;
    hide EncodingName;
    SchemeExactly(text, None, Inline(encoding));
    SchemeSplits(text, "inline", EncodingName(encoding));
    if SplitOnce(text, ':').Some? {
      var (scheme, rest) := SplitOnce(text, ':').value;
      SchemeExactly(scheme, Some(rest), Inline(encoding));
    }
  }

  lemma {:induction false} AttachmentExactly(text: string, position: u64, size: u64)
    ensures ParseFields(text) == Ok(Attachment(position, size)) <==> Denotes(text, Attachment(position, size))
  {
    hide SplitOnce;
    hide ParseScheme;
    hide ParsePositionAndSize;
    hide DenotesNumbers;
    SchemeExactly(text, None, Attachment(position, size));
    NothingSplits(position, size);
    if SplitOnce(text, ':').Some? {
      var (scheme, rest) := SplitOnce(text, ':').value;
      SchemeExactly(scheme, Some(rest), Attachment(position, size));
      NumbersExactly(rest, position, size);
      SplitOnceExactly(text, ':', scheme, rest);
    }
    forall rest | text == "attachment" + ":" + rest
      ensures SplitOnce(text, ':') == Some(("attachment", rest))
    {
      SchemeSplits(text, "attachment", rest);
    }
  }

  lemma {:induction false} PrefixExactly(text: string, open: string, rest: string)
    ensures StripPrefix(text, open) == Some(rest) <==> text == open + rest
  {
    if text == open + rest {
      assert text[..|open|] == open && text[|open|..] == rest;
    }
    if StartsWith(text, open) {
      assert text == text[..|open|] + text[|open|..];
    }
  }

  lemma {:induction false} ParenthesisedExactly(text: string, open: string, locator: string, index: Option<u64>)
    ensures Parenthesised(text, open, locator, index) <==>
      StripPrefix(text, open).Some? && Gives(ParseLocator(StripPrefix(text, open).value), locator, index)
  {
    hide DenotesLocator;
    hide StripPrefix;
    if StripPrefix(text, open).Some? {
      PrefixExactly(text, open, StripPrefix(text, open).value);
      LocatorExactly(StripPrefix(text, open).value, locator, index);
    }
    forall rest | text == open + rest
      ensures StripPrefix(text, open) == Some(rest)
    {
      PrefixExactly(text, open, rest);
    }
  }

  /** What the first character of a text already rules out. */
  lemma {:induction false} FirstCharacterDecides(text: string, location: Location)
    requires Denotes(text, location)
    ensures StartsWith(text, "path(") ==> location.Path?
    ensures StartsWith(text, "url(") ==> location.Url?
  {
    hide DenotesNumbers;
    hide DenotesLocator;
    PrefixFirst(text, "path(");
    PrefixFirst(text, "url(");
  }

  /** Exactly which texts locate a block, and where; white space around the text does not count. */
  lemma {:induction false} LocationExactly(raw: string, location: Location)
    ensures ParseLocation(raw) == Ok(location) <==> Denotes(Trim(raw), location)
  {
    hide Trim;
    hide ParseLocator;
    hide DenotesNumbers;
    hide DenotesLocator;
    hide ParseFields;
    hide Parenthesised;
    var text := Trim(raw);
    if Denotes(text, location) {
      FirstCharacterDecides(text, location);
    }
    match location {
      case Embedded(encoding) => EmbeddedExactly(text, encoding);
      case Inline(encoding) => InlineExactly(text, encoding);
      case Attachment(position, size) => AttachmentExactly(text, position, size);
      case Path(locator, index) =>
        ParenthesisedExactly(text, "path(", locator, index);
        FieldsAreNeither(text);
      case Url(locator, index) =>
        ParenthesisedExactly(text, "url(", locator, index);
        FieldsAreNeither(text);
    }
  }

  lemma {:induction false} FieldsAreNeither(text: string)
    ensures ParseFields(text).Ok? ==> !ParseFields(text).value.Path? && !ParseFields(text).value.Url?
  {
    hide SplitOnce;
    hide ParseScheme;
    match SplitOnce(text, ':') {
      case None => SchemeIsNeither(text, None);
      case Some((scheme, rest)) => SchemeIsNeither(scheme, Some(rest));
    }
  }

  lemma {:induction false} SchemeIsNeither(scheme: string, rest: Option<string>)
    ensures ParseScheme(scheme, rest).Ok? ==>
      !ParseScheme(scheme, rest).value.Path? && !ParseScheme(scheme, rest).value.Url?
  {
    hide SplitOnce;
    hide ParseU64;
  }

  /** The locator of an attached block. */
  function AttachmentText(position: nat, size: nat): string
  {
    "attachment:" + Decimal(position) + ":" + Decimal(size)
  }

  /** The locator of a block of a data blocks file beside the header, `name` as it stands in the text. */
  function ExternalText(name: string, id: nat): string
  {
    "path(" + (HEADER_DIR_TOKEN + "/" + name) + ")" + (":0x" + Digits(id, 16))
  }

  lemma {:induction false} DigitRunsAreTight(n: nat, base: nat)
    requires 2 <= base <= 16
    ensures forall c <- Digits(n, base) :: DigitValue(c).Some?
    ensures ':' !in Digits(n, base) && ')' !in Digits(n, base) && '+' !in Digits(n, base)
    ensures !EndsInWhiteSpace(Digits(n, base)) && !IsWhiteSpace(Digits(n, base)[0])
  {
    DigitsAreDigits(n, base);
  }

  lemma {:induction false} TrimTight(text: string)
    requires text != [] && !IsWhiteSpace(text[0]) && !EndsInWhiteSpace(text)
    ensures Trim(text) == text
  {
  }

  /** An attached block's locator reads back as it was written, whenever both numbers fit the field. */
  lemma {:induction false} AttachmentReadsBack(position: nat, size: nat)
    ensures ParseLocation(AttachmentText(position, size))
         == if position < U64_LIMIT && size < U64_LIMIT then Ok(Attachment(position, size)) else Err(BadAttribute)
  {
    var text := AttachmentText(position, size);
    DigitRunsAreTight(size, 10);
    assert text[|text| - 1] == Decimal(size)[|Decimal(size)| - 1];
    FieldsParse(text);
    AttachmentFields(position, size);
  }

  lemma {:induction false} FieldsParse(text: string)
    requires text != [] && !IsWhiteSpace(text[0]) && !EndsInWhiteSpace(text)
    requires text[0] != 'p' && text[0] != 'u'
    ensures ParseLocation(text) == ParseFields(text)
  {
    TrimTight(text);
    PrefixFirst(text, "path(");
    PrefixFirst(text, "url(");
  }

  lemma {:induction false} PrefixFirst(text: string, prefix: string)
    requires prefix != ""
    ensures StartsWith(text, prefix) ==> text != "" && text[0] == prefix[0]
  {
  }

  lemma {:induction false} AttachmentFields(position: nat, size: nat)
    ensures ParseFields(AttachmentText(position, size))
         == if position < U64_LIMIT && size < U64_LIMIT then Ok(Attachment(position, size)) else Err(BadAttribute)
  {
    var rest := Decimal(position) + [':'] + Decimal(size);
    assert AttachmentText(position, size) == "attachment" + [':'] + rest;
    DigitRunsAreTight(position, 10);
    SplitOnceAt("attachment", ':', rest);
    SplitOnceAt(Decimal(position), ':', Decimal(size));
    ParsePrintedU64(position);
    ParsePrintedU64(size);
  }

  lemma {:induction false} BlockIdReadsBack(id: u64)
    ensures ParseBlockId("0x" + Digits(id, 16)) == Ok(id)
  {
    var text := "0x" + Digits(id, 16);
    assert text[..2] == "0x" && text[2..] == Digits(id, 16);
    FromPrinted(id, 16, U64_LIMIT - 1);
  }

  /** The locator of a block in a file beside the header, read: trailing white space in the name is lost. */
  lemma {:induction false} ExternalReads(name: string, id: u64)
    ensures ParseLocation(ExternalText(name, id)) == Ok(Path(TrimEnd(HEADER_DIR_TOKEN + "/" + name), Some(id)))
  {
    hide ParseLocator;
    hide ParseFields;
    hide Digits;
    hide TrimEnd;
    hide Trim;
    var locator := HEADER_DIR_TOKEN + "/" + name;
    var rest := locator + [')'] + (":0x" + Digits(id, 16));
    var text := ExternalText(name, id);
    assert text == "path(" + rest;
    DigitRunsAreTight(id, 16);
    assert text[|text| - 1] == Digits(id, 16)[|Digits(id, 16)| - 1];
    TrimTight(text);
    assert text[..5] == "path(" && text[5..] == rest;
    LocatorReads(locator, id);
    TrimmedAlready(locator);
  }

  lemma {:induction false} LocatorReads(locator: string, id: u64)
    requires locator != [] && !IsWhiteSpace(locator[0])
    ensures ParseLocator(locator + [')'] + (":0x" + Digits(id, 16))) == Ok((Trim(locator), Some(id)))
  {
    var tail := ":0x" + Digits(id, 16);
    var rest := locator + [')'] + tail;
    DigitRunsAreTight(id, 16);
    AfterLastUnique(locator, ')', tail);
    assert rest[..|locator|] == locator && rest[|locator| + 1..] == tail;
    TrimTight(tail);
    IdentifierReads(id);
    TrimmedAlready(locator);
    TrimEndKeepsFirst(locator);
  }

  lemma {:induction false} IdentifierReads(id: u64)
    ensures var tail := ":0x" + Digits(id, 16);
      StripPrefix(tail, ":") == Some("0x" + Digits(id, 16)) && ParseBlockId(Trim("0x" + Digits(id, 16))) == Ok(id)
  {
    var tail := ":0x" + Digits(id, 16);
    assert tail[..1] == ":" && tail[1..] == "0x" + Digits(id, 16);
    DigitRunsAreTight(id, 16);
    TrimTight("0x" + Digits(id, 16));
    BlockIdReadsBack(id);
  }

  lemma {:induction false} TrimEndKeepsFirst(text: string)
    requires text != [] && !IsWhiteSpace(text[0])
    ensures TrimEnd(text) != []
  {
    if EndsInWhiteSpace(text) {
      TrimEndKeepsFirst(text[..|text| - 1]);
    }
  }

  /** The locator a distributed header carries: only the file name is escaped. */
  function DistributedLocator(name: string, id: nat): string
  {
    ExternalText(Escaped(name, true), id)
  }

  /** The text of a distributed locator once the attribute has been read. */
  lemma {:induction false} DistributedLocatorText(name: string, id: u64)
    ensures AttributeValue(DistributedLocator(name, id)) == Some(ExternalText(Folded(name), id))
  {
    var head, tail := "path(" + HEADER_DIR_TOKEN + "/", ")" + (":0x" + Digits(id, 16));
    TailIsPlain(id);
    ExternalShape(Escaped(name, true), id);
    ExternalShape(Folded(name), id);
    assert PlainText(head);
    EnclosedReads(head, name, tail);
  }

  lemma {:induction false} ExternalShape(name: string, id: nat)
    ensures ExternalText(name, id) == "path(" + HEADER_DIR_TOKEN + "/" + (name + (")" + (":0x" + Digits(id, 16))))
  {
  }

  lemma {:induction false} TailIsPlain(id: u64)
    ensures PlainText(")" + (":0x" + Digits(id, 16)))
  {
    var digits, tail := Digits(id, 16), ")" + (":0x" + Digits(id, 16));
    DigitsAreDigits(id, 16);
    assert forall i :: 4 <= i < |tail| ==> tail[i] == digits[i - 4];
  }

  lemma {:induction false} EnclosedReads(head: string, name: string, tail: string)
    requires PlainText(head) && PlainText(tail)
    ensures AttributeValue(head + (Escaped(name, true) + tail)) == Some(head + (Folded(name) + tail))
  {
    FoldedPlain(head, Escaped(name, true) + tail);
    FoldedBeforePlain(Escaped(name, true), tail);
    FoldedEscaped(name);
    PlainReads(tail);
    EscapedReads(Folded(name), true, tail);
    PlainThen(head, Escaped(Folded(name), true) + tail);
  }

  /**
    The file name a reader takes from a distributed locator is the one written exactly when that has
    no tab or line end, which the attribute folds, and no trailing white space, which the locator trims.
   */
  lemma {:induction false} DistributedLocatorExactly(name: string, id: u64)
    ensures AttributeValue(DistributedLocator(name, id)) == Some(ExternalText(Folded(name), id))
    ensures ParseLocation(ExternalText(Folded(name), id)) == Ok(Path(HEADER_DIR_TOKEN + "/" + name, Some(id)))
       <==> !HasFoldedChar(name) && !EndsInWhiteSpace(name)
  {
    DistributedLocatorText(name, id);
    ExternalReads(Folded(name), id);
    FoldedFixed(name);
    var read := HEADER_DIR_TOKEN + "/" + Folded(name);
    var written := HEADER_DIR_TOKEN + "/" + name;
    TrimEndShrinks(read);
    if TrimEnd(read) == written {
      assert |read| <= |written|;
      assert Folded(name) == read[12..] && name == written[12..];
    }
  }
}
