/** What an element's attributes say about its block, in whatever order they come. */
module StatedBlocks {
  import opened Primitives
  import opened Locations
  import opened BlockAttributes
  import opened HeaderTree

  predicate DistinctKeys(pairs: seq<(string, string)>)
  {
    forall i, j :: 0 <= i < j < |pairs| ==> pairs[i].0 != pairs[j].0
  }

  // -------------------------------------------------- one attribute, or none

  ghost predicate TakesLocation(before: Option<Location>, text: Option<string>, after: Option<Location>)
  {
    if text.None? then after == before else after.Some? && ParseLocation(text.value) == Ok(after.value)
  }

  ghost predicate TakesCompression(before: Option<Compression>, text: Option<string>, after: Option<Compression>)
  {
    if text.None? then after == before else after.Some? && ParseCompression(text.value) == Ok(after.value)
  }

  ghost predicate TakesSubblocks(before: Option<seq<(u64, u64)>>, text: Option<string>, after: Option<seq<(u64, u64)>>)
  {
    if text.None? then after == before else after.Some? && ParseSubblocks(text.value) == Ok(after.value)
  }

  ghost predicate TakesChecksum(before: Option<Checksum>, text: Option<string>, after: Option<Checksum>)
  {
    if text.None? then after == before else after.Some? && ParseChecksum(text.value) == Ok(after.value)
  }

  predicate TakesByteOrder(before: ByteOrder, text: Option<string>, after: ByteOrder)
  {
    if text.None? then after == before else text.value == match after case Little => "little" case Big => "big"
  }

  predicate TakesEncoding(before: Option<TextEncoding>, text: Option<string>, after: Option<TextEncoding>)
  {
    if text.None? then after == before
    else after.Some? && text.value == match after.value case Base64 => "base64" case Hex => "hex"
  }

  /** Every attribute that concerns a block has had its effect, and no other. */
  ghost predicate Takes(own: Own, pairs: seq<(string, string)>, end: Own)
  {
    TakesLocation(own.data.location, Lookup(pairs, "location"), end.data.location)
    && TakesCompression(own.data.compression, Lookup(pairs, "compression"), end.data.compression)
    && TakesSubblocks(own.subblocks, Lookup(pairs, "subblocks"), end.subblocks)
    && TakesChecksum(own.data.checksum, Lookup(pairs, "checksum"), end.data.checksum)
    && TakesByteOrder(own.data.byteOrder, Lookup(pairs, "byteOrder"), end.data.byteOrder)
    && TakesEncoding(own.data.encoding, Lookup(pairs, "encoding"), end.data.encoding)
    && end.data.text == own.data.text
  }

  /** The effect of the first attribute, and then of the rest. */
  lemma {:induction false} TakesFirst(own: Own, pairs: seq<(string, string)>, end: Own)
    requires pairs != [] && DistinctKeys(pairs)
    ensures var next := ReadAttribute(own, pairs[0].0, pairs[0].1);
      Takes(own, pairs, end) <==> next.Ok? && Takes(next.value, pairs[1..], end)
  {
    hide ParseLocation;
    hide ParseCompression;
    hide ParseSubblocks;
    hide ParseChecksum;
    LookupLacking(pairs[1..], pairs[0].0);
  }

  lemma {:induction false} ReadsExactly(own: Own, pairs: seq<(string, string)>, end: Own)
    requires DistinctKeys(pairs)
    ensures ReadPairs(own, pairs) == Ok(end) <==> Takes(own, pairs, end)
    decreases |pairs|
  {
    if pairs != [] {
      hide Takes;
      hide ReadAttribute;
      TakesFirst(own, pairs, end);
      var next := ReadAttribute(own, pairs[0].0, pairs[0].1);
      if next.Ok? {
        ReadsExactly(next.value, pairs[1..], end);
      }
    }
  }

  // -------------------------------------------------- the whole reference

  /** What each attribute says, or what its absence does; subblocks divide a compressed block and no other. */
  ghost predicate States(pairs: seq<(string, string)>, data: DataRef)
  {
    TakesLocation(None, Lookup(pairs, "location"), data.location)
    && StatesCompression(Lookup(pairs, "compression"), Lookup(pairs, "subblocks"), data.compression)
    && TakesChecksum(None, Lookup(pairs, "checksum"), data.checksum)
    && TakesByteOrder(Little, Lookup(pairs, "byteOrder"), data.byteOrder)
    && TakesEncoding(None, Lookup(pairs, "encoding"), data.encoding)
    && data.text == None
  }

  ghost predicate StatesCompression(compression: Option<string>, subblocks: Option<string>, c: Option<Compression>)
  {
    if compression.None? then subblocks == None && c == None
    else
      c.Some? && ParseCompression(compression.value) == Ok(c.value.(subblocks := []))
      && if subblocks.None? then c.value.subblocks == [] else ParseSubblocks(subblocks.value) == Ok(c.value.subblocks)
  }

  /**
    Exactly which attributes are accepted and what they make of a block's reference, whatever their order: each
    that concerns blocks is well formed, and subblocks come with a compression.
   */
  lemma {:induction false} AttributesExactly(pairs: seq<(string, string)>, data: DataRef)
    requires DistinctKeys(pairs)
    ensures OwnData(pairs) == Ok(data) <==> States(pairs, data)
  {
    hide ReadPairs;
    hide ParseLocation;
    hide ParseSubblocks;
    hide ParseChecksum;
    hide Takes;
    if OwnData(pairs) == Ok(data) {
      var own := ReadPairs(Own(NO_DATA, None), pairs).value;
      ReadsExactly(Own(NO_DATA, None), pairs, own);
      TakenIsStated(pairs, own, data);
    }
    if States(pairs, data) {
      var own := StatedIsTaken(pairs, data);
      ReadsExactly(Own(NO_DATA, None), pairs, own);
    }
  }

  lemma {:induction false} NoSubblocksYet(text: string)
    ensures ParseCompression(text).Ok? ==> ParseCompression(text).value.subblocks == []
  {
  }

  lemma {:induction false} TakenIsStated(pairs: seq<(string, string)>, own: Own, data: DataRef)
    requires Takes(Own(NO_DATA, None), pairs, own) && MarrySubblocks(own) == Ok(data)
    ensures States(pairs, data)
  {
    NoSubblocksYet(Lookup(pairs, "compression").GetOr(""));
    hide ParseLocation;
    hide ParseCompression;
    hide ParseSubblocks;
    hide ParseChecksum;
    hide Lookup;
  }

  lemma {:induction false} StatedIsTaken(pairs: seq<(string, string)>, data: DataRef) returns (own: Own)
    requires States(pairs, data)
    ensures Takes(Own(NO_DATA, None), pairs, own) && MarrySubblocks(own) == Ok(data)
  {
    hide ParseLocation;
    hide ParseCompression;
    hide ParseSubblocks;
    hide ParseChecksum;
    hide Lookup;
    if data.compression.None? {
      own := Own(data, None);
    } else {
      var c := data.compression.value;
      own := Own(data.(compression := Some(c.(subblocks := []))),
                 if Lookup(pairs, "subblocks").None? then None else Some(c.subblocks));
    }
  }
}
