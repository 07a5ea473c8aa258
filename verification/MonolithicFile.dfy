/** A whole monolithic file: written by a `Writer`, and read back block by block. */
module MonolithicFile {
  import opened Primitives
  import Text
  import BlockCodec
  import opened HeaderLength
  import FileLayout
  import opened ImageText
  import opened MonolithicWriter
  import opened ImageChecks

  // -------------------------------------------------- adding images

  /** A product by repeated checked multiplication, which stops at the first overflow. */
  function CheckedProduct(factors: seq<u64>, start: u64): Option<u64>
  {
    if factors == [] then Some(start)
    else if start * factors[0] >= U64_LIMIT then None
    else CheckedProduct(factors[1..], start * factors[0])
  }

  function SampleCount(shape: Shape): Option<u64> { CheckedProduct(shape.dimensions + [shape.channels], 1) }

  /** The bytes of pixel data a shape calls for. */
  function DataSize(shape: Shape): Option<u64>
  {
    var count :- SampleCount(shape);
    if count * shape.sampleSize >= U64_LIMIT then None else Some(count * shape.sampleSize)
  }

  function Product(factors: seq<u64>): nat
  {
    if factors == [] then 1 else factors[0] * Product(factors[1..])
  }

  /** Every prefix of the factors has a product that fits, when `start` comes before them. */
  ghost predicate PrefixesFit(factors: seq<u64>, start: nat)
  {
    forall k :: 0 < k <= |factors| ==> start * Product(factors[..k]) < U64_LIMIT
  }

  lemma {:induction false} PrefixesStep(factors: seq<u64>, start: nat)
    requires factors != []
    ensures PrefixesFit(factors, start) <==>
      start * factors[0] < U64_LIMIT && PrefixesFit(factors[1..], start * factors[0])
    ensures start * Product(factors) == (start * factors[0]) * Product(factors[1..])
  {
    var rest := factors[1..];
    ProductStep(factors, start, |factors|);
    assert factors[..|factors|] == factors && rest[..|rest|] == rest;
    forall k | 0 < k <= |factors|
      ensures start * Product(factors[..k]) == (start * factors[0]) * Product(rest[..k - 1])
    {
      ProductStep(factors, start, k);
    }
    assert Product(rest[..0]) == 1;
    if PrefixesFit(factors, start) {
      assert start * Product(factors[..1]) < U64_LIMIT;
      forall k | 0 < k <= |rest|
        ensures (start * factors[0]) * Product(rest[..k]) < U64_LIMIT
      {
        assert start * Product(factors[..k + 1]) < U64_LIMIT;
      }
    }
  }

  lemma {:induction false} ProductStep(factors: seq<u64>, start: nat, k: nat)
    requires 0 < k <= |factors|
    ensures start * Product(factors[..k]) == (start * factors[0]) * Product(factors[1..][..k - 1])
  {
    assert factors[..k][1..] == factors[1..][..k - 1];
    assert start * (factors[0] * Product(factors[1..][..k - 1]))
      == (start * factors[0]) * Product(factors[1..][..k - 1]);
  }

  lemma {:induction false} CheckedIsProduct(factors: seq<u64>, start: u64)
    ensures CheckedProduct(factors, start) ==
      if PrefixesFit(factors, start) then Some(start * Product(factors)) else None
  {
    if factors != [] {
      hide PrefixesFit;
      hide Product;
      PrefixesStep(factors, start);
      if start * factors[0] < U64_LIMIT {
        CheckedIsProduct(factors[1..], start * factors[0]);
      }
    }
  }

  /**
    The number of samples of a shape is every dimension times the channels, exactly when multiplying
    them in order never overflows; a zero comes too late if the factors before it already have.
   */
  lemma {:induction false} SampleCountExactly(shape: Shape)
    ensures var factors := shape.dimensions + [shape.channels];
      SampleCount(shape) == if PrefixesFit(factors, 1) then Some(Product(factors)) else None
  {
    var factors := shape.dimensions + [shape.channels];
    CheckedIsProduct(factors, 1);
    assert 1 * Product(factors) == Product(factors);
  }

  lemma {:induction false} ProductConcat(a: seq<u64>, b: seq<u64>)
    ensures Product(a + b) == Product(a) * Product(b)
  {
    if a == [] {
      assert a + b == b;
    } else {
      assert (a + b)[1..] == a[1..] + b;
      ProductConcat(a[1..], b);
      Associates(a[0], Product(a[1..]), Product(b));
    }
  }

  lemma {:induction false} Associates(a: nat, b: nat, c: nat)
    ensures a * (b * c) == a * b * c
  {
  }

  /** The bytes a shape calls for: its dimensions, its channels and the size of a sample multiplied together. */
  lemma {:induction false} DataSizeExactly(shape: Shape, n: u64)
    ensures DataSize(shape) == Some(n) <==>
      PrefixesFit(shape.dimensions + [shape.channels], 1)
      && n == Product(shape.dimensions) * shape.channels * shape.sampleSize
  {
    hide PrefixesFit;
    SampleCountExactly(shape);
    ProductConcat(shape.dimensions, [shape.channels]);
    assert Product([shape.channels]) == shape.channels * Product([]);
  }

  /** A shape with a zero dimension that is refused all the same, and the same shape with the zero first. */
  lemma {:induction false} OverflowBeforeZero()
    ensures SampleCount(Shape([0x100_0000_0000, 0x100_0000_0000, 0], 1, 1)) == None
    ensures SampleCount(Shape([0, 0x100_0000_0000, 0x100_0000_0000], 1, 1)) == Some(0)
  {
    var big: u64 := 0x100_0000_0000;
    assert [big, big, 0] + [1] == [big, big, 0, 1] && [big, big, 0, 1][1..] == [big, 0, 1];
    assert CheckedProduct([big, 0, 1], big) == None;
    assert [0, big, big] + [1] == [0, big, big, 1] && [0, big, big, 1][1..] == [big, big, 1];
    assert CheckedProduct([big, big, 1], 0) == CheckedProduct([big, 1], 0) == CheckedProduct([1], 0)
      == CheckedProduct([], 0);
  }

  /** A shape none of whose factors is zero is counted exactly when its count fits. */
  lemma {:induction false} SolidShapeCounted(shape: Shape)
    requires shape.channels > 0 && 0 !in shape.dimensions
    ensures SampleCount(shape)
         == var n := Product(shape.dimensions + [shape.channels]); if n < U64_LIMIT then Some(n) else None
  {
    var factors := shape.dimensions + [shape.channels];
    SampleCountExactly(shape);
    assert 0 !in factors;
    if Product(factors) < U64_LIMIT {
      forall k | 0 < k <= |factors|
        ensures 1 * Product(factors[..k]) < U64_LIMIT
      {
        PrefixBelow(factors, k);
      }
    } else {
      assert factors[..|factors|] == factors;
      assert 1 * Product(factors[..|factors|]) >= U64_LIMIT;
    }
  }

  lemma {:induction false} PrefixBelow(factors: seq<u64>, k: nat)
    requires 0 < k <= |factors| && 0 !in factors
    ensures 0 < Product(factors[..k]) <= Product(factors)
  {
    var rest := factors[1..];
    assert factors[..k][1..] == rest[..k - 1];
    assert factors[0] in factors;
    if k > 1 {
      PrefixBelow(rest, k - 1);
    } else if rest != [] {
      PrefixBelow(rest, |rest|);
      assert rest[..|rest|] == rest;
    }
    Text.MulMonotone(factors[0], Product(rest[..k - 1]), Product(rest));
    Text.MulMonotone(factors[0], 1, Product(rest[..k - 1]));
  }

  /** Whether what an image declares may be written, its tables aside. */
  predicate IsDeclarable(image: PendingImage)
  {
    (NeedsBounds(image.image.format) ==> image.image.bounds.Some?)
    && (image.image.id.Some? ==> IsWord(image.image.id.value))
    && (image.image.uuid.Some? ==> IsUuid(image.image.uuid.value))
    && forall k <- image.keywords :: IsFitsName(k.name)
  }

  /** A thumbnail's restrictions: two dimensions, 8- or 16-bit integers, no bounds, gray or RGB. */
  predicate ThumbnailAllowed(thumbnail: PendingThumbnail)
  {
    var image := thumbnail.image;
    DataSize(ShapeOf(image)) == Some(|thumbnail.data|) && |image.dimensions| == 2
    && (image.format == UInt8 || image.format == UInt16) && image.bounds.None? && image.colour != CieLab
  }

  /** Exactly which thumbnails are allowed, in the format's own words. */
  lemma {:induction false} ThumbnailExactly(thumbnail: PendingThumbnail)
    ensures var image := thumbnail.image;
      ThumbnailAllowed(thumbnail) <==>
        |image.dimensions| == 2 && FormatName(image.format) in ["UInt8", "UInt16"]
        && ColourName(image.colour) in ["Gray", "RGB"] && image.bounds == None
        && DataSize(ShapeOf(image)) == Some(|thumbnail.data|)
  {
    hide DataSize;
  }

  /** The loop over an image's tables, which stops at the first that is refused. */
  method CheckTables(tables: seq<Table>) returns (fault: Option<ErrorKind>)
    ensures fault == TablesFault(tables)
  {
    assert tables[0..] == tables;
    for i := 0 to |tables|
      invariant TablesFault(tables) == TablesFault(tables[i..])
    {
      assert tables[i..][1..] == tables[i + 1..];
      fault := CheckTable(tables[i]);
      if fault.Some? {
        return;
      }
    }
    return None;
  }

  /** An image that a writer has accepted. */
  ghost predicate IsAccepted(image: PendingImage)
  {
    Fitting(image) && DataSize(ShapeOf(image.image)) == Some(|image.data|) && IsDeclarable(image)
    && (image.thumbnail.Some? ==> ThumbnailAllowed(image.thumbnail.value))
    && forall t <- image.tables :: IsRectangular(t)
  }

  ghost predicate AcceptedTogether(images: seq<PendingImage>)
  {
    (forall i :: 0 <= i < |images| ==> IsAccepted(images[i]))
    && forall i, j :: 0 <= i < j < |images| && images[i].image.id.Some? ==> images[i].image.id != images[j].image.id
  }

  class Writer {
    var images: seq<PendingImage>
    var frame: Frame

    /** Every image accepted so far may be written as it is, and no two share an identifier. */
    ghost predicate Valid()
      reads this
    {
      AcceptedTogether(images)
    }

    constructor (frame: Frame)
      ensures Valid() && images == [] && this.frame == frame
    {
      images := [];
      this.frame := frame;
    }

    /** Whether an image, its tables aside, may be added to those already there. */
    ghost predicate Addable(image: PendingImage)
      reads this
    {
      (image.image.id.Some? ==> forall i :: 0 <= i < |images| ==> images[i].image.id != image.image.id)
      && IsDeclarable(image) && DataSize(ShapeOf(image.image)) == Some(|image.data|)
      && (image.thumbnail.Some? ==> ThumbnailAllowed(image.thumbnail.value))
    }

    method AddImage(image: PendingImage) returns (r: Result<bool>)
      requires Valid() && Fitting(image)
      modifies this
      ensures Valid() && frame == old(frame)
      ensures r == if !old(Addable(image)) then Err(InvalidArgument)
                   else match TablesFault(image.tables) { case Some(fault) => Err(fault) case None => Ok(true) }
      ensures images == old(images) + (if r.Ok? then [image] else [])
    {
      hide DataSize;
      hide IsWord;
      hide IsUuid;
      hide IsFitsName;
      hide IsRectangular;
      hide TablesFault;
      var declared := image.image;
      if declared.id.Some? {
        for i := 0 to |images|
          invariant forall k :: 0 <= k < i ==> images[k].image.id != declared.id
        {
          if images[i].image.id == declared.id {
            return Err(InvalidArgument);
          }
        }
      }
      if NeedsBounds(declared.format) && declared.bounds.None? {
        return Err(InvalidArgument);
      }
      if (declared.id.Some? && !IsWord(declared.id.value)) || (declared.uuid.Some? && !IsUuid(declared.uuid.value)) {
        return Err(InvalidArgument);
      }
      var expected := DataSize(ShapeOf(declared));
      if expected.None? {
        return Err(InvalidArgument);
      }
      if |image.data| != expected.value {
        return Err(InvalidArgument);
      }
      if image.thumbnail.Some? {
        var preview := image.thumbnail.value.image;
        if DataSize(ShapeOf(preview)) != Some(|image.thumbnail.value.data|) {
          return Err(InvalidArgument);
        }
        if |preview.dimensions| != 2 {
          return Err(InvalidArgument);
        }
        if preview.format != UInt8 && preview.format != UInt16 {
          return Err(InvalidArgument);
        }
        if preview.bounds.Some? {
          return Err(InvalidArgument);
        }
        if preview.colour != Gray && preview.colour != Rgb {
          return Err(InvalidArgument);
        }
      }
      for i := 0 to |image.keywords|
        invariant forall k :: 0 <= k < i ==> IsFitsName(image.keywords[k].name)
      {
        if !IsFitsName(image.keywords[i].name) {
          return Err(InvalidArgument);
        }
      }
      var fault := CheckTables(image.tables);
      if fault.Some? {
        return Err(fault.value);
      }
      TablesAcceptedExactly(image.tables);
      images := images + [image];
      return Ok(true);
    }

    /** The finished file, or the first thing that goes wrong on the way to it. */
    method ToBytes(engine: BlockCodec.Engine) returns (r: Result<seq<byte>>)
      requires Valid()
      ensures PrepareAll(engine, images).Err? ==> r == Err(PrepareAll(engine, images).kind)
      ensures PrepareAll(engine, images).Ok? && !Renderable(images) ==> r == Err(InvalidArgument)
      ensures PrepareAll(engine, images).Ok? && Renderable(images) ==>
        exists header :: IsHeader(frame, images, PrepareAll(engine, images).value, header)
          && r == if |header| < U32_LIMIT then
                    Ok(FileLayout.Assembled(header, BlockBytes(PrepareAll(engine, images).value.blocks)))
                  else Err(Unsupported)
    {
      hide HeaderBytes;
      hide LengthOf;
      hide PrepareAll;
      hide Renderable;
      hide IsHeader;
      hide Settled;
      hide Consecutive;
      hide Placed;
      hide InRange;
      var prepared := PrepareBlocks(engine, images);
      if prepared.Err? {
        return Err(prepared.kind);
      }
      var stored := prepared.value;
      PreparedShape(engine, images);
      ghost var fixed := FixedLength(frame, images, stored);
      var settled := SettleHeader(frame, images, stored, fixed);
      if settled.Err? {
        return Err(settled.kind);
      }
      var header := settled.value;
      assert IsHeader(frame, images, stored, header) by {
        SettledIsHeader(frame, images, stored, header, fixed);
      }
      if |header| >= U32_LIMIT {
        return Err(Unsupported);
      }
      var out := FileLayout.SIGNATURE + LeBytes(|header|, 4) + [0, 0, 0, 0] + header;
      out := AppendBlockBytes(out, stored.blocks);
      return Ok(out);
    }
  }

  method AppendBlockBytes(head: seq<byte>, blocks: seq<BlockCodec.StoredBlock>) returns (out: seq<byte>)
    ensures out == head + BlockBytes(blocks)
  {
    out := head;
    for i := 0 to |blocks|
      invariant out == head + BlockBytes(blocks[..i])
    {
      BlockBytesNext(blocks, i);
      out := out + blocks[i].bytes;
    }
    assert blocks[..|blocks|] == blocks;
  }

  /** The header of a file: it holds the positions its own length implies, and no shorter one does. */
  ghost predicate IsHeader(frame: Frame, images: seq<PendingImage>, stored: StoredBlocks, header: seq<byte>)
  {
    AllInRange(images, stored)
    && header == HeaderBytes(frame, images, stored, Attached(FileLayout.PREAMBLE_LEN + |header|))
    && forall length: nat :: LengthAt(frame, images, stored, length) == length ==> |header| <= length
  }

  lemma {:induction false} ConsecutiveInRange(engine: BlockCodec.Engine, images: seq<PendingImage>,
      stored: StoredBlocks)
    requires |stored.owners| == |images|
    requires forall i :: 0 <= i < |images| ==>
      Fitting(images[i]) && Placed(engine, stored.blocks, images[i], stored.owners[i])
    ensures AllInRange(images, stored)
  {
  }

  /** Prepared blocks belong to the images in order, with none left over. */
  lemma {:induction false} PreparedShape(engine: BlockCodec.Engine, images: seq<PendingImage>)
    requires forall i :: 0 <= i < |images| ==> Fitting(images[i])
    requires PrepareAll(engine, images).Ok?
    ensures var stored := PrepareAll(engine, images).value;
      AllInRange(images, stored) && Consecutive(stored.owners, 0, |stored.blocks|)
      && forall i :: 0 <= i < |images| ==> Placed(engine, stored.blocks, images[i], stored.owners[i])
  {
    hide PrepareFrom;
    hide Placed;
    hide Consecutive;
    hide InRange;
    var stored := PrepareAll(engine, images).value;
    PreparedIsPlaced(engine, StoredBlocks([], []), images);
    assert stored.owners[0..] == stored.owners;
    ConsecutiveInRange(engine, images, stored);
  }

  ghost function FixedLength(frame: Frame, images: seq<PendingImage>, stored: StoredBlocks): (fixed: nat)
    requires AllInRange(images, stored) && Consecutive(stored.owners, 0, |stored.blocks|)
    ensures forall assumed: nat :: LengthAt(frame, images, stored, assumed) == LengthOf(fixed, stored.blocks, assumed)
  {
    LengthsAre(frame, images, stored);
    FixedHeader(frame, images, stored)
  }

  lemma {:induction false} LengthsAre(frame: Frame, images: seq<PendingImage>, stored: StoredBlocks)
    requires AllInRange(images, stored) && Consecutive(stored.owners, 0, |stored.blocks|)
    ensures forall assumed: nat ::
      LengthAt(frame, images, stored, assumed) == LengthOf(FixedHeader(frame, images, stored), stored.blocks, assumed)
  {
    forall assumed: nat
      ensures LengthAt(frame, images, stored, assumed)
              == LengthOf(FixedHeader(frame, images, stored), stored.blocks, assumed)
    {
      LengthIs(frame, images, stored, assumed);
    }
  }

  lemma {:induction false} SettledIsHeader(frame: Frame, images: seq<PendingImage>, stored: StoredBlocks,
      header: seq<byte>, fixed: nat)
    requires AllInRange(images, stored)
    requires forall assumed: nat :: LengthAt(frame, images, stored, assumed) == LengthOf(fixed, stored.blocks, assumed)
    requires Settled(frame, images, stored, header, fixed)
    ensures IsHeader(frame, images, stored, header)
  {
    forall length: nat | LengthAt(frame, images, stored, length) == length
      ensures |header| <= length
    {
      assert LengthOf(fixed, stored.blocks, length) == length;
    }
  }
}
