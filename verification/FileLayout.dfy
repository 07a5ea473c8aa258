/** The fixed part of a file: signature, header length, header. */
module FileLayout {
  import opened Primitives

  // "XISF0100"
  const SIGNATURE: seq<byte> := [0x58, 0x49, 0x53, 0x46, 0x30, 0x31, 0x30, 0x30]
  const PREAMBLE_LEN: nat := 16

  datatype Form = Monolithic | HeaderFile

  /** Where the header is, as a half-open range, and which form the file takes. */
  datatype Layout = Layout(start: nat, end: nat, form: Form)

  predicate IsAsciiWhiteSpace(b: byte) { b == 0x20 || b == 0x09 || b == 0x0A || b == 0x0C || b == 0x0D }

  function SkipWhiteSpace(bytes: seq<byte>): seq<byte>
  {
    if bytes != [] && IsAsciiWhiteSpace(bytes[0]) then SkipWhiteSpace(bytes[1..]) else bytes
  }

  /** Whether the bytes open an XML document, after any byte order mark and white space. */
  predicate LooksLikeXml(bytes: seq<byte>)
  {
    var body := SkipWhiteSpace(if [0xEF, 0xBB, 0xBF] <= bytes then bytes[3..] else bytes);
    body != [] && body[0] == 0x3C
  }

  function Scan(bytes: seq<byte>): Result<Layout>
  {
    if !(SIGNATURE <= bytes) && LooksLikeXml(bytes) then Ok(Layout(0, |bytes|, HeaderFile))
    else if |bytes| < PREAMBLE_LEN then Err(Truncated)
    else if bytes[..8] != SIGNATURE then Err(NotXisf)
    else
      var length := LeValue(bytes[8..12]);
      if bytes[12..16] != [0, 0, 0, 0] then Err(BadHeader)
      else if PREAMBLE_LEN + length > |bytes| then Err(Truncated)
      else Ok(Layout(PREAMBLE_LEN, PREAMBLE_LEN + length, Monolithic))
  }

  /** A whole monolithic file around a header and the data after it. */
  function Assembled(header: seq<byte>, data: seq<byte>): (file: seq<byte>)
    ensures |file| == PREAMBLE_LEN + |header| + |data|
  {
    SIGNATURE + LeBytes(|header|, 4) + [0, 0, 0, 0] + header + data
  }

  /** Scanning an assembled file finds its header, whatever its header and data hold. */
  lemma {:induction false} ScanFindsHeader(header: seq<byte>, data: seq<byte>)
    requires |header| < U32_LIMIT
    ensures Scan(Assembled(header, data)) == Ok(Layout(PREAMBLE_LEN, PREAMBLE_LEN + |header|, Monolithic))
    ensures Assembled(header, data)[PREAMBLE_LEN..PREAMBLE_LEN + |header|] == header
    ensures Assembled(header, data)[PREAMBLE_LEN + |header|..] == data
  {
    var file := Assembled(header, data);
    FieldWidths();
    LeValueOfBytes(|header|, 4);
    assert file[..8] == SIGNATURE;
    assert file[8..12] == LeBytes(|header|, 4);
    assert file[12..16] == [0, 0, 0, 0];
  }

  /** A header file, being XML, is never taken for a monolithic one. */
  lemma {:induction false} XmlIsHeaderFile(bytes: seq<byte>)
    ensures LooksLikeXml(bytes) ==> Scan(bytes) == Ok(Layout(0, |bytes|, HeaderFile))
    ensures Scan(bytes).Ok? && Scan(bytes).value.form == Monolithic ==> SIGNATURE <= bytes
  {
    if SIGNATURE <= bytes {
      assert bytes[0] == SIGNATURE[0];
    }
  }

  predicate AllAsciiWhite(bytes: seq<byte>) { forall b <- bytes :: IsAsciiWhiteSpace(b) }

  lemma {:induction false} SkippedParts(bytes: seq<byte>) returns (white: seq<byte>)
    ensures AllAsciiWhite(white) && bytes == white + SkipWhiteSpace(bytes)
  {
    white := [];
    if bytes != [] && IsAsciiWhiteSpace(bytes[0]) {
      var rest := SkippedParts(bytes[1..]);
      white := [bytes[0]] + rest;
    }
  }

  lemma {:induction false} SkipsWhite(white: seq<byte>, rest: seq<byte>)
    requires AllAsciiWhite(white) && rest != [] && !IsAsciiWhiteSpace(rest[0])
    ensures SkipWhiteSpace(white + rest) == rest
  {
    if white == [] {
      assert white + rest == rest;
    } else {
      assert white[0] in white && (white + rest)[1..] == white[1..] + rest;
      SkipsWhite(white[1..], rest);
    }
  }

  function Opening(mark: seq<byte>, white: seq<byte>, rest: seq<byte>): seq<byte>
  {
    mark + (white + ([0x3C] + rest))
  }

  /** Bytes that open an XML document: perhaps a byte order mark, perhaps white space, and then a tag. */
  ghost predicate OpensDocument(bytes: seq<byte>)
  {
    exists mark, white, rest ::
      (mark == [] || mark == [0xEF, 0xBB, 0xBF]) && AllAsciiWhite(white) && bytes == Opening(mark, white, rest)
  }

  lemma {:induction false} FoundOpening(bytes: seq<byte>)
    requires LooksLikeXml(bytes)
    ensures OpensDocument(bytes)
  {
    var mark: seq<byte> := [0xEF, 0xBB, 0xBF];
    var first := if mark <= bytes then mark else [];
    var body := bytes[|first|..];
    var white := SkippedParts(body);
    var rest := SkipWhiteSpace(body);
    hide SkipWhiteSpace;
    hide AllAsciiWhite;
    assert rest == [0x3C] + rest[1..];
    assert bytes == first + body;
    assert bytes == Opening(first, white, rest[1..]);
  }

  lemma {:induction false} OpeningLooks(mark: seq<byte>, white: seq<byte>, rest: seq<byte>)
    requires (mark == [] || mark == [0xEF, 0xBB, 0xBF]) && AllAsciiWhite(white)
    ensures LooksLikeXml(Opening(mark, white, rest))
  {
    var body := white + ([0x3C] + rest);
    var bytes := Opening(mark, white, rest);
    SkipsWhite(white, [0x3C] + rest);
    assert body[0] == if white == [] then 0x3C else white[0];
    assert white != [] ==> white[0] in white;
    if mark == [] {
      assert bytes == body;
    } else {
      assert bytes[..3] == mark && bytes[3..] == body;
    }
  }

  lemma {:induction false} DocumentOpensExactly(bytes: seq<byte>)
    ensures LooksLikeXml(bytes) <==> OpensDocument(bytes)
  {
    hide LooksLikeXml;
    hide AllAsciiWhite;
    hide Opening;
    if LooksLikeXml(bytes) {
      FoundOpening(bytes);
    }
    forall mark, white, rest | (mark == [] || mark == [0xEF, 0xBB, 0xBF]) && AllAsciiWhite(white)
                               && bytes == Opening(mark, white, rest)
      ensures LooksLikeXml(bytes)
    {
      OpeningLooks(mark, white, rest);
    }
  }

  /**
    Exactly which files are taken for monolithic ones, and with which header: those that are a header with a
    preamble before it and data after it. And exactly which are header files: those that open as a document.
   */
  lemma {:induction false} ScanExactly(bytes: seq<byte>, end: nat)
    ensures Scan(bytes) == Ok(Layout(PREAMBLE_LEN, end, Monolithic)) <==>
      exists header, data ::
        |header| < U32_LIMIT && end == PREAMBLE_LEN + |header| && bytes == Assembled(header, data)
    ensures Scan(bytes) == Ok(Layout(0, |bytes|, HeaderFile)) <==> OpensDocument(bytes)
  {
    DocumentOpensExactly(bytes);
    XmlIsHeaderFile(bytes);
    hide LooksLikeXml;
    hide OpensDocument;
    if Scan(bytes) == Ok(Layout(PREAMBLE_LEN, end, Monolithic)) {
      PreambleTaken(bytes, end);
    }
    forall header, data | |header| < U32_LIMIT && end == PREAMBLE_LEN + |header| && bytes == Assembled(header, data)
      ensures Scan(bytes) == Ok(Layout(PREAMBLE_LEN, end, Monolithic))
    {
      ScanFindsHeader(header, data);
    }
  }

  lemma {:induction false} PreambleTaken(bytes: seq<byte>, end: nat)
    requires Scan(bytes) == Ok(Layout(PREAMBLE_LEN, end, Monolithic))
    ensures PREAMBLE_LEN <= end <= |bytes| && end - PREAMBLE_LEN < U32_LIMIT
    ensures bytes == Assembled(bytes[PREAMBLE_LEN..end], bytes[end..])
  {
    hide LooksLikeXml;
    FieldWidths();
    LeValueBound(bytes[8..12]);
    LeBytesBack(bytes[8..12]);
    hide LeBytes;
    hide LeValue;
    FivePieces(bytes, end);
  }

  lemma {:induction false} FivePieces(bytes: seq<byte>, end: nat)
    requires PREAMBLE_LEN <= end <= |bytes|
    ensures bytes == bytes[..8] + bytes[8..12] + bytes[12..16] + bytes[PREAMBLE_LEN..end] + bytes[end..]
  {
  }
}
