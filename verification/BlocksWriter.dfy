/** Writing a data blocks file, and reading back what was written. */
module BlocksWriter {
  import opened Primitives
  import opened BlocksFile
  import opened ExternalBlocks

  /** One block to place; the uncompressed length is carried because the index records it. */
  datatype PendingBlock = PendingBlock(id: u64, bytes: seq<byte>, uncompressedLength: Option<u64>)

  function ElementBytes(e: IndexElement): (out: seq<byte>)
    ensures |out| == ELEMENT_SIZE
  {
    LeBytes(e.id, 8) + LeBytes(e.position, 8) + LeBytes(e.length, 8) + LeBytes(e.uncompressedLength, 8) + ZEROS8
  }

  function AllElementBytes(elements: seq<IndexElement>): (out: seq<byte>)
    ensures |out| == |elements| * ELEMENT_SIZE
  {
    if elements == [] then [] else ElementBytes(elements[0]) + AllElementBytes(elements[1..])
  }

  /** What is left of a number of elements in a 32-bit field. */
  function CountField(n: nat): (count: nat)
    ensures count < U32_LIMIT && count <= n && (n < U32_LIMIT <==> count == n)
  {
    n % U32_LIMIT
  }

  /** A whole file with a single node, whose count field is 32 bits wide. */
  function OneNodeFile(elements: seq<IndexElement>, data: seq<byte>): seq<byte>
  {
    OneNodeHead(|elements|) + AllElementBytes(elements) + data
  }

  function OneNodeHead(count: nat): (head: seq<byte>)
    ensures |head| == 32
  {
    BLOCKS_SIGNATURE + ZEROS8 + LeBytes(CountField(count), 4) + ZEROS4 + ZEROS8
  }

  lemma {:induction false} ElementRoundTrip(file: seq<byte>, at: nat, e: IndexElement)
    requires at + ELEMENT_SIZE <= |file| && file[at..at + ELEMENT_SIZE] == ElementBytes(e)
    ensures ElementAt(file, at) == e
  {
    hide LeValue;
    hide LeBytes;
    FieldWidths();
    LeValueOfBytes(e.id, 8);
    LeValueOfBytes(e.position, 8);
    LeValueOfBytes(e.length, 8);
    LeValueOfBytes(e.uncompressedLength, 8);
    var out := ElementBytes(e);
    assert out[0..8] == LeBytes(e.id, 8);
    assert out[8..16] == LeBytes(e.position, 8);
    assert out[16..24] == LeBytes(e.length, 8);
    assert out[24..32] == LeBytes(e.uncompressedLength, 8);
    ElementThroughBuffer(file, at);
  }

  lemma {:induction false} ElementBytesAt(elements: seq<IndexElement>, i: nat)
    requires i < |elements|
    ensures AllElementBytes(elements)[i * ELEMENT_SIZE..i * ELEMENT_SIZE + ELEMENT_SIZE] == ElementBytes(elements[i])
  {
    if i > 0 {
      ElementBytesAt(elements[1..], i - 1);
      var rest := AllElementBytes(elements[1..]);
      assert AllElementBytes(elements)[i * 40..i * 40 + 40] == rest[(i - 1) * 40..(i - 1) * 40 + 40];
    } else {
      assert AllElementBytes(elements)[0..40] == ElementBytes(elements[0]);
    }
  }

  lemma {:induction false} OneNodeFields(elements: seq<IndexElement>, data: seq<byte>)
    ensures var file := OneNodeFile(elements, data);
      PreambleHolds(file) && NodeFits(file, 16) && NodeCount(file, 16) == CountField(|elements|)
        && NodeNext(file, 16) == 0
  {
    var file, head := OneNodeFile(elements, data), OneNodeHead(|elements|);
    OneNodeHeadFields(|elements|);
    assert forall k :: 0 <= k < 32 ==> file[k] == head[k];
    assert file[..8] == head[..8] && file[8..16] == head[8..16];
    assert file[16..20] == head[16..20] && file[20..24] == head[20..24] && file[24..32] == head[24..32];
  }

  lemma {:induction false} OneNodeHeadFields(count: nat)
    ensures var head := OneNodeHead(count);
      head[..8] == BLOCKS_SIGNATURE && head[8..16] == ZEROS8 && head[20..24] == ZEROS4
      && LeValue(head[16..20]) == CountField(count) && LeValue(head[24..32]) == 0
  {
    hide LeValue;
    hide CountField;
    assert LeBytes(0, 8) == ZEROS8;
    hide LeBytes;
    var head := OneNodeHead(count);
    FieldWidths();
    LeValueOfBytes(CountField(count), 4);
    LeValueOfBytes(0, 8);
    assert head[16..20] == LeBytes(CountField(count), 4);
    assert head[24..32] == ZEROS8;
  }

  lemma {:induction false} OneNodeElement(elements: seq<IndexElement>, data: seq<byte>, i: nat)
    requires i < |elements|
    ensures 32 + i * ELEMENT_SIZE + ELEMENT_SIZE <= |OneNodeFile(elements, data)|
    ensures ElementAt(OneNodeFile(elements, data), 32 + i * ELEMENT_SIZE) == elements[i]
  {
    var file, all := OneNodeFile(elements, data), AllElementBytes(elements);
    ElementBytesAt(elements, i);
    assert file[32..32 + |all|] == all;
    SubSlice(file, 32, 32 + |all|, i * 40, i * 40 + 40);
    ElementRoundTrip(file, 32 + i * ELEMENT_SIZE, elements[i]);
  }

  /** The index of a one-node file reads back, up to what a 32-bit count can say. */
  lemma {:induction false} OneNodeParses(elements: seq<IndexElement>, data: seq<byte>)
    ensures ParseBlocks(OneNodeFile(elements, data)) == Ok(elements[..CountField(|elements|)])
  {
    hide ParseBlocks;
    hide ElementAt;
    hide LeValue;
    hide OneNodeFile;
    hide IndexChain;
    hide ChainElements;
    var file := OneNodeFile(elements, data);
    var count := CountField(|elements|);
    OneNodeFields(elements, data);
    forall i | 0 <= i < count
      ensures ElementAt(file, 32 + i * ELEMENT_SIZE) == elements[i]
    {
      OneNodeElement(elements, data, i);
    }
    assert NodeElements(file, 16) == elements[..count];
    OneNodeChain(file);
    ParseExact(file);
  }

  /** A node that fits and has no next is a whole chain, if the file has room for its elements. */
  lemma {:induction false} OneNodeChain(file: seq<byte>)
    requires NodeFits(file, 16) && NodeNext(file, 16) == 0
    ensures IndexChain(file, [16]) && ChainElements(file, [16]) == NodeElements(file, 16)
  {
    hide LeValue;
    var chain := [16];
    assert chain[1..] == [];
    assert ChainElements(file, chain) == NodeElements(file, 16) + ChainElements(file, []);
  }

  // -------------------------------------------------- the writer

  ghost predicate DistinctIds(blocks: seq<PendingBlock>)
  {
    forall i, j :: 0 <= i < j < |blocks| ==> blocks[i].id != blocks[j].id
  }

  ghost predicate NoneEmpty(blocks: seq<PendingBlock>)
  {
    forall b <- blocks :: b.bytes != []
  }

  function PendingParts(blocks: seq<PendingBlock>): (parts: seq<seq<byte>>)
    ensures |parts| == |blocks|
  {
    seq(|blocks|, i requires 0 <= i < |blocks| => blocks[i].bytes)
  }

  /** The bytes of the blocks, laid end to end. */
  function Payload(blocks: seq<PendingBlock>): seq<byte> { Concat(PendingParts(blocks)) }

  lemma {:induction false} PayloadFirst(blocks: seq<PendingBlock>)
    requires blocks != []
    ensures Payload(blocks) == blocks[0].bytes + Payload(blocks[1..])
  {
    assert PendingParts(blocks)[1..] == PendingParts(blocks[1..]);
  }

  function FirstBlockAt(blocks: seq<PendingBlock>): nat { 32 + |blocks| * ELEMENT_SIZE }

  /** Where block `i` begins: after the index and the blocks before it. */
  function BlockAt(blocks: seq<PendingBlock>, i: nat): nat
    requires i <= |blocks|
  {
    FirstBlockAt(blocks) + |Payload(blocks[..i])|
  }

  /** An element is the record of a block placed at a position. */
  ghost predicate Records(e: IndexElement, block: PendingBlock, position: nat)
  {
    e.id == block.id && e.position == position && e.length == |block.bytes|
    && e.uncompressedLength == block.uncompressedLength.GetOr(0)
  }

  lemma {:induction false} PendingPartsPrefix(blocks: seq<PendingBlock>, i: nat)
    requires i <= |blocks|
    ensures PendingParts(blocks[..i]) == PendingParts(blocks)[..i]
  {
  }

  lemma {:induction false} PayloadNext(blocks: seq<PendingBlock>, i: nat)
    requires i < |blocks|
    ensures Payload(blocks[..i + 1]) == Payload(blocks[..i]) + blocks[i].bytes
  {
    hide Concat;
    PendingPartsPrefix(blocks, i);
    PendingPartsPrefix(blocks, i + 1);
    ConcatNext(PendingParts(blocks), i);
  }

  lemma {:induction false} PayloadSlice(blocks: seq<PendingBlock>, i: nat)
    requires i < |blocks|
    ensures |Payload(blocks[..i])| + |blocks[i].bytes| <= |Payload(blocks)|
    ensures Payload(blocks)[|Payload(blocks[..i])|..|Payload(blocks[..i])| + |blocks[i].bytes|] == blocks[i].bytes
  {
    hide Concat;
    PendingPartsPrefix(blocks, i);
    ConcatSlice(PendingParts(blocks), i);
  }

  /** The elements of a run of blocks, the first of them placed at `position`. */
  function ElementsFrom(blocks: seq<PendingBlock>, position: nat): seq<IndexElement>
    requires position + |Payload(blocks)| < U64_LIMIT
  {
    if blocks == [] then []
    else
      PayloadFirst(blocks);
      [IndexElement(blocks[0].id, position, |blocks[0].bytes|, blocks[0].uncompressedLength.GetOr(0))]
      + ElementsFrom(blocks[1..], position + |blocks[0].bytes|)
  }

  lemma {:induction false} ElementsDescribe(blocks: seq<PendingBlock>, position: nat, i: nat)
    requires position + |Payload(blocks)| < U64_LIMIT
    ensures |ElementsFrom(blocks, position)| == |blocks|
    ensures i < |blocks| ==> Records(ElementsFrom(blocks, position)[i], blocks[i], position + |Payload(blocks[..i])|)
  {
    if blocks != [] {
      var rest := blocks[1..];
      PayloadFirst(blocks);
      ElementsDescribe(rest, position + |blocks[0].bytes|, if i == 0 then 0 else i - 1);
      if 0 < i < |blocks| {
        assert blocks[..i][1..] == rest[..i - 1];
        PayloadFirst(blocks[..i]);
      }
    }
  }

  lemma {:induction false} ElementsSnoc(blocks: seq<PendingBlock>, b: PendingBlock, position: nat)
    requires position + |Payload(blocks)| + |b.bytes| < U64_LIMIT
    ensures |Payload(blocks + [b])| == |Payload(blocks)| + |b.bytes|
    ensures ElementsFrom(blocks + [b], position) == ElementsFrom(blocks, position)
      + [IndexElement(b.id, position + |Payload(blocks)|, |b.bytes|, b.uncompressedLength.GetOr(0))]
  {
    var all := blocks + [b];
    PayloadNext(all, |blocks|);
    assert all[..|blocks|] == blocks && all[..|all|] == all;
    if blocks == [] {
      assert all[1..] == [];
    } else {
      PayloadFirst(blocks);
      assert all[1..] == blocks[1..] + [b];
      ElementsSnoc(blocks[1..], b, position + |blocks[0].bytes|);
    }
  }

  function WrittenFile(blocks: seq<PendingBlock>): (file: seq<byte>)
    requires FirstBlockAt(blocks) + |Payload(blocks)| < U64_LIMIT
    ensures |file| == FirstBlockAt(blocks) + |Payload(blocks)|
  {
    ElementsDescribe(blocks, FirstBlockAt(blocks), 0);
    OneNodeFile(ElementsFrom(blocks, FirstBlockAt(blocks)), Payload(blocks))
  }

  /** The first loop: one element a block, refusing an identifier seen before and an empty block. */
  method PlaceBlocks(blocks: seq<PendingBlock>) returns (r: Result<seq<IndexElement>>)
    requires FirstBlockAt(blocks) + |Payload(blocks)| < U64_LIMIT
    ensures r == if DistinctIds(blocks) && NoneEmpty(blocks)
                 then Ok(ElementsFrom(blocks, FirstBlockAt(blocks))) else Err(InvalidArgument)
  {
    assert Payload([]) == [] && blocks[..0] == [];
    assert ElementsFrom([], FirstBlockAt(blocks)) == [];
    hide Payload;
    hide ElementsFrom;
    var seen: set<u64> := {};
    var elements: seq<IndexElement> := [];
    var position: nat := FirstBlockAt(blocks);
    for i := 0 to |blocks|
      invariant seen == set k | 0 <= k < i :: blocks[k].id
      invariant DistinctIds(blocks[..i]) && NoneEmpty(blocks[..i])
      invariant |Payload(blocks[..i])| <= |Payload(blocks)| && position == BlockAt(blocks, i)
      invariant elements == ElementsFrom(blocks[..i], FirstBlockAt(blocks))
    {
      var block := blocks[i];
      PayloadSlice(blocks, i);
      if block.id in seen {
        return Err(InvalidArgument);
      }
      if block.bytes == [] {
        assert block in blocks;
        return Err(InvalidArgument);
      }
      seen := seen + {block.id};
      elements := elements + [IndexElement(block.id, position, |block.bytes|, block.uncompressedLength.GetOr(0))];
      position := position + |block.bytes|;
      ElementsSnoc(blocks[..i], block, FirstBlockAt(blocks));
      assert blocks[..i + 1] == blocks[..i] + [block];
    }
    assert blocks[..|blocks|] == blocks;
    return Ok(elements);
  }

  method WriteBlocksFile(blocks: seq<PendingBlock>) returns (r: Result<seq<byte>>)
    requires FirstBlockAt(blocks) + |Payload(blocks)| < U64_LIMIT
    ensures r == if DistinctIds(blocks) && NoneEmpty(blocks) then Ok(WrittenFile(blocks)) else Err(InvalidArgument)
  {
    var placed := PlaceBlocks(blocks);
    if placed.Err? {
      return Err(placed.kind);
    }
    ElementsDescribe(blocks, FirstBlockAt(blocks), 0);
    var out := OneNodeHead(|blocks|);
    out := AppendElements(out, placed.value);
    out := AppendBlocks(out, blocks);
    return Ok(out);
  }

  method AppendElements(head: seq<byte>, elements: seq<IndexElement>) returns (out: seq<byte>)
    ensures out == head + AllElementBytes(elements)
  {
    out := head;
    for i := 0 to |elements|
      invariant out == head + AllElementBytes(elements[..i])
    {
      ElementBytesSnoc(elements[..i], elements[i]);
      assert elements[..i + 1] == elements[..i] + [elements[i]];
      out := out + ElementBytes(elements[i]);
    }
    assert elements[..|elements|] == elements;
  }

  method AppendBlocks(head: seq<byte>, blocks: seq<PendingBlock>) returns (out: seq<byte>)
    ensures out == head + Payload(blocks)
  {
    out := head;
    for i := 0 to |blocks|
      invariant out == head + Payload(blocks[..i])
    {
      PayloadNext(blocks, i);
      out := out + blocks[i].bytes;
    }
    assert blocks[..|blocks|] == blocks;
  }

  lemma {:induction false} ElementBytesSnoc(elements: seq<IndexElement>, e: IndexElement)
    ensures AllElementBytes(elements + [e]) == AllElementBytes(elements) + ElementBytes(e)
  {
    if elements == [] {
      assert AllElementBytes([e]) == ElementBytes(e) + AllElementBytes([]);
      assert [] + [e] == [e];
    } else {
      assert (elements + [e])[1..] == elements[1..] + [e];
      ElementBytesSnoc(elements[1..], e);
    }
  }

  // -------------------------------------------------- the round trip

  /** Parsing what was written gives the blocks' own records, up to what the 32-bit count can say. */
  lemma {:induction false} WrittenIndexParses(blocks: seq<PendingBlock>) returns (elements: seq<IndexElement>)
    requires FirstBlockAt(blocks) + |Payload(blocks)| < U64_LIMIT
    ensures |elements| == CountField(|blocks|)
    ensures forall i :: 0 <= i < |elements| ==> Records(elements[i], blocks[i], BlockAt(blocks, i))
    ensures ParseBlocks(WrittenFile(blocks)) == Ok(elements)
  {
    var first := FirstBlockAt(blocks);
    var all := ElementsFrom(blocks, first);
    ElementsDescribe(blocks, first, 0);
    elements := all[..CountField(|blocks|)];
    AllDescribed(blocks, first);
    OneNodeParses(all, Payload(blocks));
  }

  lemma {:induction false} AllDescribed(blocks: seq<PendingBlock>, position: nat)
    requires position + |Payload(blocks)| < U64_LIMIT
    ensures |ElementsFrom(blocks, position)| == |blocks|
    ensures forall i :: 0 <= i < |blocks| ==>
      Records(ElementsFrom(blocks, position)[i], blocks[i], position + |Payload(blocks[..i])|)
  {
    ElementsDescribe(blocks, position, 0);
    forall i | 0 <= i < |blocks|
      ensures Records(ElementsFrom(blocks, position)[i], blocks[i], position + |Payload(blocks[..i])|)
    {
      ElementsDescribe(blocks, position, i);
    }
  }

  lemma {:induction false} WrittenBlockSlices(blocks: seq<PendingBlock>, i: nat, e: IndexElement)
    requires FirstBlockAt(blocks) + |Payload(blocks)| < U64_LIMIT
    requires i < |blocks| && Records(e, blocks[i], BlockAt(blocks, i))
    ensures !e.IsFree() && Slice(WrittenFile(blocks), e) == Ok(blocks[i].bytes)
  {
    var file, first := WrittenFile(blocks), FirstBlockAt(blocks);
    PayloadSlice(blocks, i);
    ElementsDescribe(blocks, first, 0);
    WrittenParts(blocks);
    var at, len := |Payload(blocks[..i])|, |blocks[i].bytes|;
    assert file[first..|file|] == Payload(blocks);
    SubSlice(file, first, |file|, at, at + len);
  }

  lemma {:induction false} WrittenParts(blocks: seq<PendingBlock>)
    requires FirstBlockAt(blocks) + |Payload(blocks)| < U64_LIMIT
    ensures WrittenFile(blocks)[FirstBlockAt(blocks)..] == Payload(blocks)
    ensures IsBlocksFile(WrittenFile(blocks))
  {
    ElementsDescribe(blocks, FirstBlockAt(blocks), 0);
    OneNodeFields(ElementsFrom(blocks, FirstBlockAt(blocks)), Payload(blocks));
  }

  /** What either reader gets for the identifier of block `i` of a written file. */
  lemma {:induction false} WrittenBlockFetched(blocks: seq<PendingBlock>, i: nat)
    requires FirstBlockAt(blocks) + |Payload(blocks)| < U64_LIMIT && DistinctIds(blocks) && i < |blocks|
    ensures var outcome := if i < CountField(|blocks|) then Ok(blocks[i].bytes) else Err(NotFound);
      ReadExternal(WrittenFile(blocks), Some(blocks[i].id)) == outcome
      && ExtractExternal(WrittenFile(blocks), Some(blocks[i].id)) == outcome
  {
    var file := WrittenFile(blocks);
    WrittenParts(blocks);
    var elements := WrittenIndexParses(blocks);
    if i < |elements| {
      WrittenBlockSlices(blocks, i, elements[i]);
      FetchIndexed(file, elements, i);
    } else {
      assert forall j :: 0 <= j < |elements| ==> elements[j].id == blocks[j].id != blocks[i].id;
      FetchMissing(file, elements, blocks[i].id);
    }
  }

  /** Block `i` of a written file reads back by its identifier. */
  ghost predicate Fetched(file: seq<byte>, blocks: seq<PendingBlock>, i: nat)
    requires i < |blocks| && |file| < U64_LIMIT
  {
    ReadExternal(file, Some(blocks[i].id)) == Ok(blocks[i].bytes)
  }

  /** Every block can be fetched by its identifier exactly while their number fits the count field. */
  lemma {:induction false} RoundTripExactly(blocks: seq<PendingBlock>)
    requires FirstBlockAt(blocks) + |Payload(blocks)| < U64_LIMIT && DistinctIds(blocks)
    ensures (forall i :: 0 <= i < |blocks| ==> Fetched(WrittenFile(blocks), blocks, i)) <==> |blocks| < U32_LIMIT
  {
    if |blocks| < U32_LIMIT {
      forall i | 0 <= i < |blocks|
        ensures Fetched(WrittenFile(blocks), blocks, i)
      {
        WrittenBlockFetched(blocks, i);
      }
    } else {
      var last := |blocks| - 1;
      WrittenBlockFetched(blocks, last);
      assert !Fetched(WrittenFile(blocks), blocks, last);
    }
  }

  /** As many one-byte blocks as asked for, each with its own identifier. */
  function ManyBlocks(n: nat): (blocks: seq<PendingBlock>)
    requires n < U64_LIMIT
    ensures |blocks| == n
  {
    seq(n, i requires 0 <= i < n => PendingBlock(i, [0], None))
  }

  lemma {:induction false} OneByteEach(blocks: seq<PendingBlock>)
    requires forall i :: 0 <= i < |blocks| ==> |blocks[i].bytes| == 1
    ensures |Payload(blocks)| == |blocks|
  {
    if blocks != [] {
      PayloadFirst(blocks);
      OneByteEach(blocks[1..]);
    }
  }

  /** A file of up to 2^58 blocks can be written, so from 2^32 on some that are written cannot be fetched. */
  lemma {:induction false} TooManyBlocks(n: nat)
    requires U32_LIMIT <= n < 0x400_0000_0000_0000
    ensures var blocks := ManyBlocks(n);
      FirstBlockAt(blocks) + |Payload(blocks)| < U64_LIMIT && DistinctIds(blocks) && NoneEmpty(blocks)
      && exists i :: 0 <= i < n && !Fetched(WrittenFile(blocks), blocks, i)
  {
    hide Fetched;
    var blocks := ManyBlocks(n);
    OneByteEach(blocks);
    RoundTripExactly(blocks);
  }

  /** A placeholder, then an occupied element with the same identifier, then its one byte. */
  function ShadowIndex(): seq<IndexElement> { [IndexElement(7, 0, 0, 0), IndexElement(7, 112, 1, 0)] }

  /** The two readers disagree on such a file: one finds the block, the other stops at the placeholder. */
  lemma {:induction false} ShadowedBlock()
    ensures var file := OneNodeFile(ShadowIndex(), [1]);
      |file| == 113 && ReadExternal(file, Some(7)) == Ok([1]) && ExtractExternal(file, Some(7)) == Err(NotFound)
  {
    hide ParseBlocks;
    hide ReadExternal;
    hide ExtractExternal;
    var file, elements := OneNodeFile(ShadowIndex(), [1]), ShadowIndex();
    OneNodeFields(elements, [1]);
    OneNodeParses(elements, [1]);
    assert elements[..2] == elements;
    assert file[112..113] == [1];
    ShadowedOutcome(file, elements);
  }

  lemma {:induction false} ShadowedOutcome(file: seq<byte>, elements: seq<IndexElement>)
    requires |file| == 113 && IsBlocksFile(file) && file[112..113] == [1]
    requires elements == ShadowIndex() && ParseBlocks(file) == Ok(elements)
    ensures ReadExternal(file, Some(7)) == Ok([1]) && ExtractExternal(file, Some(7)) == Err(NotFound)
  {
    SeekRefinesWalk(file, 7);
    assert FirstOccupied(elements, 7) == FirstOccupied(elements[1..], 7) == Some(elements[1]);
  }
}
