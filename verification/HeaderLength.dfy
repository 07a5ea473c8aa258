/** The header's length as a function of where its data begins, and the fixed point the writer settles on. */
module HeaderLength {
  import opened Primitives
  import Text
  import opened BlockCodec
  import opened HeaderTree
  import opened HeaderDocument
  import opened HeaderTrees
  import opened HeaderText
  import opened FileLayout
  import opened ImageText
  import opened MonolithicWriter

  // -------------------------------------------------- length is fixed text plus digits

  /** The digits of the positions of blocks `from` up to `to`, when the data begins at `base`. */
  function WidthSum(blocks: seq<StoredBlock>, base: nat, from: nat, to: nat): nat
    requires from <= to <= |blocks|
    decreases if from <= to then to - from else 0
  {
    if from == to then 0 else Width(base + Offset(blocks, from)) + WidthSum(blocks, base, from + 1, to)
  }

  lemma {:induction false} WidthSumSplit(blocks: seq<StoredBlock>, base: nat, from: nat, mid: nat, to: nat)
    requires from <= mid <= to <= |blocks|
    ensures WidthSum(blocks, base, from, to) == WidthSum(blocks, base, from, mid) + WidthSum(blocks, base, mid, to)
    decreases mid - from
  {
    if from < mid {
      WidthSumSplit(blocks, base, from + 1, mid, to);
    }
  }

  /** What a located element's attributes take without the digits of its position. */
  function FixedAttributes(own: seq<(string, string)>, blocks: seq<StoredBlock>, i: nat): nat
    requires i < |blocks|
  {
    ByteLen(PrintAttributes(RawAttributes(own + BlockPairs(blocks[i])))) + 24 + Width(|blocks[i].bytes|)
  }

  lemma {:induction false} RawConcat(a: seq<(string, string)>, b: seq<(string, string)>)
    ensures RawAttributes(a + b) == RawAttributes(a) + RawAttributes(b)
  {
    if a == [] {
      assert a + b == b;
    } else {
      assert (a + b)[1..] == a[1..] + b;
      RawConcat(a[1..], b);
    }
  }

  lemma {:induction false} AttributesLength(own: seq<(string, string)>, blocks: seq<StoredBlock>, base: nat, i: nat)
    requires i < |blocks|
    ensures ByteLen(PrintAttributes(RawAttributes(ElementPairs(own, Attached(base), blocks, i))))
         == FixedAttributes(own, blocks, i) + Width(base + Offset(blocks, i))
  {
    var fixed := own + BlockPairs(blocks[i]);
    var position, size := base + Offset(blocks, i), |blocks[i].bytes|;
    var pair := ("location", Locator(Attached(base), blocks, i));
    var one := [pair];
    RawConcat(fixed, one);
    assert one[1..] == [];
    assert RawAttributes(one) == [Attribute(pair.0, pair.1)];
    PrintAttributesConcat(RawAttributes(fixed), RawAttributes(one));
    Utf8Concat(PrintAttributes(RawAttributes(fixed)), PrintAttributes(RawAttributes(one)));
    LocatorLength(position, size);
  }

  /** The length of an element printed as an empty tag. */
  lemma {:induction false} LeafLength(name: string, raw: seq<RawAttribute>)
    ensures ByteLen(Print(Leaf(Tag(name, Bound(XISF_NAMESPACE), raw))))
         == ByteLen("<" + name) + ByteLen(PrintAttributes(raw)) + ByteLen("/>")
  {
    Utf8Concat("<" + name + PrintAttributes(raw), "/>");
    Utf8Concat("<" + name, PrintAttributes(raw));
  }

  lemma {:induction false} NodeLength(name: string, raw: seq<RawAttribute>, items: seq<Piece>)
    ensures ByteLen(Print(Node(Tag(name, Bound(XISF_NAMESPACE), raw), items)))
         == ByteLen("<" + name) + ByteLen(PrintAttributes(raw)) + ByteLen(">") + ByteLen(PrintAll(items))
            + ByteLen("</" + name + ">")
  {
    var open := "<" + name;
    Utf8Concat(open + PrintAttributes(raw) + ">" + PrintAll(items), "</" + name + ">");
    Utf8Concat(open + PrintAttributes(raw) + ">", PrintAll(items));
    Utf8Concat(open + PrintAttributes(raw), ">");
    Utf8Concat(open, PrintAttributes(raw));
  }

  lemma {:induction false} PrintAllLength(a: seq<Piece>, b: seq<Piece>)
    ensures ByteLen(PrintAll(a + b)) == ByteLen(PrintAll(a)) + ByteLen(PrintAll(b))
  {
    PrintAllConcat(a, b);
    Utf8Concat(PrintAll(a), PrintAll(b));
  }

  lemma {:induction false} PrintOneLength(piece: Piece)
    ensures ByteLen(PrintAll([piece])) == ByteLen(Print(piece))
  {
    var one := [piece];
    assert one[1..] == [];
    assert PrintAll(one) == Print(one[0]) + PrintAll([]) == Print(one[0]);
  }

  function FixedLeaf(present: bool, name: string, own: seq<(string, string)>, blocks: seq<StoredBlock>, i: nat): nat
    requires present ==> i < |blocks|
  {
    if present then ByteLen("<" + name) + FixedAttributes(own, blocks, i) + ByteLen("/>") else 0
  }

  function MaybeWidth(present: bool, blocks: seq<StoredBlock>, base: nat, i: nat): nat
    requires present ==> i < |blocks|
  {
    if present then Width(base + Offset(blocks, i)) else 0
  }

  lemma {:induction false} MaybeLeafLength(present: bool, name: string, own: seq<(string, string)>, base: nat,
      blocks: seq<StoredBlock>, i: nat)
    requires present ==> i < |blocks|
    ensures ByteLen(PrintAll(MaybeLeaf(present, name, own, Attached(base), blocks, i)))
         == FixedLeaf(present, name, own, blocks, i) + MaybeWidth(present, blocks, base, i)
  {
    if present {
      var raw := RawAttributes(ElementPairs(own, Attached(base), blocks, i));
      PrintOneLength(Leaf(Tag(name, Bound(XISF_NAMESPACE), raw)));
      LeafLength(name, raw);
      AttributesLength(own, blocks, base, i);
    }
  }

  function FixedExtras(image: PendingImage, owned: ImageBlocks, blocks: seq<StoredBlock>): nat
    requires InRange(image, owned, blocks)
  {
    FixedLeaf(owned.icc.Some?, "ICCProfile", [], blocks, owned.icc.GetOr(0))
    + FixedLeaf(owned.thumbnail.Some?, "Thumbnail", ThumbnailAttributes(image), blocks, owned.thumbnail.GetOr(0))
  }

  function FixedImage(image: PendingImage, owned: ImageBlocks, blocks: seq<StoredBlock>): nat
    requires InRange(image, owned, blocks)
  {
    ByteLen("<" + "Image") + FixedAttributes(ImageOwn(image), blocks, owned.data) + ByteLen(">")
    + (ByteLen(PrintAll(Ancillary(image))) + FixedExtras(image, owned, blocks)
       + ByteLen(PrintAll(TablePieces(image.tables))))
    + ByteLen("</" + "Image" + ">")
  }

  /** The positions of an image's own extra blocks. */
  function ExtraWidths(owned: ImageBlocks, blocks: seq<StoredBlock>, base: nat): nat
    requires owned.icc.Some? ==> owned.icc.value < |blocks|
    requires owned.thumbnail.Some? ==> owned.thumbnail.value < |blocks|
  {
    MaybeWidth(owned.icc.Some?, blocks, base, owned.icc.GetOr(0))
    + MaybeWidth(owned.thumbnail.Some?, blocks, base, owned.thumbnail.GetOr(0))
  }

  lemma {:induction false} ExtrasLength(image: PendingImage, owned: ImageBlocks, blocks: seq<StoredBlock>, base: nat)
    requires InRange(image, owned, blocks)
    ensures ByteLen(PrintAll(ExtraPieces(image, owned, Attached(base), blocks)))
         == FixedExtras(image, owned, blocks) + ExtraWidths(owned, blocks, base)
  {
    PrintAllLength(MaybeLeaf(owned.icc.Some?, "ICCProfile", [], Attached(base), blocks, owned.icc.GetOr(0)),
                   MaybeLeaf(owned.thumbnail.Some?, "Thumbnail", ThumbnailAttributes(image), Attached(base), blocks,
                             owned.thumbnail.GetOr(0)));
    MaybeLeafLength(owned.icc.Some?, "ICCProfile", [], base, blocks, owned.icc.GetOr(0));
    MaybeLeafLength(owned.thumbnail.Some?, "Thumbnail", ThumbnailAttributes(image), base, blocks,
                    owned.thumbnail.GetOr(0));
  }

  lemma {:induction false} ImageLength(image: PendingImage, owned: ImageBlocks, blocks: seq<StoredBlock>, base: nat)
    requires InRange(image, owned, blocks)
    ensures ByteLen(Print(ImagePiece(image, owned, Attached(base), blocks)))
         == FixedImage(image, owned, blocks) + Width(base + Offset(blocks, owned.data))
            + ExtraWidths(owned, blocks, base)
  {
    var raw := RawAttributes(ElementPairs(ImageOwn(image), Attached(base), blocks, owned.data));
    var extras := ExtraPieces(image, owned, Attached(base), blocks);
    NodeLength("Image", raw, Ancillary(image) + extras + TablePieces(image.tables));
    PrintAllLength(Ancillary(image) + extras, TablePieces(image.tables));
    PrintAllLength(Ancillary(image), extras);
    AttributesLength(ImageOwn(image), blocks, base, owned.data);
    ExtrasLength(image, owned, blocks, base);
  }

  /** Consecutive owners: an image's positions are those of one run of blocks. */
  lemma {:induction false} OwnedWidths(owned: ImageBlocks, blocks: seq<StoredBlock>, base: nat)
    requires NextIndex(owned) <= |blocks|
    requires owned.icc.Some? ==> owned.icc.value == owned.data + 1
    requires owned.thumbnail.Some? ==> owned.thumbnail.value == NextIndex(owned) - 1
    ensures WidthSum(blocks, base, owned.data, NextIndex(owned))
         == Width(base + Offset(blocks, owned.data)) + ExtraWidths(owned, blocks, base)
  {
    var d, n := owned.data, NextIndex(owned);
    assert WidthSum(blocks, base, n, n) == 0;
    WidthSumSplit(blocks, base, d, d + 1, n);
    assert WidthSum(blocks, base, d, d + 1) == Width(base + Offset(blocks, d)) + WidthSum(blocks, base, d + 1, d + 1);
    if n > d + 1 {
      WidthSumSplit(blocks, base, d + 1, d + 2, n);
      assert WidthSum(blocks, base, d + 1, d + 2)
        == Width(base + Offset(blocks, d + 1)) + WidthSum(blocks, base, d + 2, d + 2);
    }
  }

  function FixedImages(images: seq<PendingImage>, stored: StoredBlocks, k: nat): nat
    requires AllInRange(images, stored) && k <= |images|
    decreases |images| - k
  {
    if k == |images| then 0
    else FixedImage(images[k], stored.owners[k], stored.blocks) + FixedImages(images, stored, k + 1)
  }

  lemma {:induction false} ConsecutiveBound(owners: seq<ImageBlocks>, first: nat, last: nat)
    requires Consecutive(owners, first, last)
    ensures first <= last
    decreases |owners|
  {
    if owners != [] {
      ConsecutiveBound(owners[1..], NextIndex(owners[0]), last);
    }
  }

  lemma {:induction false} ImagesLength(images: seq<PendingImage>, stored: StoredBlocks, base: nat, k: nat, first: nat)
    requires AllInRange(images, stored) && k <= |images|
    requires first <= |stored.blocks| && Consecutive(stored.owners[k..], first, |stored.blocks|)
    ensures ByteLen(PrintAll(ImagePieces(images, stored, Attached(base))[k..]))
         == FixedImages(images, stored, k) + WidthSum(stored.blocks, base, first, |stored.blocks|)
    decreases |images| - k
  {
    var pieces, blocks := ImagePieces(images, stored, Attached(base)), stored.blocks;
    if k == |images| {
      assert pieces[k..] == [];
    } else {
      var owned := stored.owners[k];
      var next := NextIndex(owned);
      assert stored.owners[k..][1..] == stored.owners[k + 1..] && stored.owners[k..][0] == owned;
      ConsecutiveBound(stored.owners[k + 1..], next, |blocks|);
      ImagesLength(images, stored, base, k + 1, next);
      OneThenRest(pieces, k);
      ImageLength(images[k], owned, blocks, base);
      OwnedWidths(owned, blocks, base);
      WidthSumSplit(blocks, base, first, next, |blocks|);
    }
  }

  lemma {:induction false} OneThenRest(pieces: seq<Piece>, k: nat)
    requires k < |pieces|
    ensures ByteLen(PrintAll(pieces[k..])) == ByteLen(Print(pieces[k])) + ByteLen(PrintAll(pieces[k + 1..]))
  {
    assert pieces[k..] == [pieces[k]] + pieces[k + 1..];
    PrintAllLength([pieces[k]], pieces[k + 1..]);
    PrintOneLength(pieces[k]);
  }

  /** Everything in the header but the digits of its positions. */
  function FixedHeader(frame: Frame, images: seq<PendingImage>, stored: StoredBlocks): nat
    requires AllInRange(images, stored)
  {
    ByteLen(XML_DECLARATION) + ByteLen("<" + "xisf") + ByteLen(PrintAttributes(RawAttributes(frame.attributes)))
    + ByteLen(">")
    + FixedImages(images, stored, 0) + ByteLen(PrintAll(frame.trailer)) + ByteLen("</" + "xisf" + ">")
  }

  /** The length the header comes out with when it is assumed to be `assumed` bytes long. */
  function LengthAt(frame: Frame, images: seq<PendingImage>, stored: StoredBlocks, assumed: nat): nat
    requires AllInRange(images, stored)
  {
    |HeaderBytes(frame, images, stored, Attached(PREAMBLE_LEN + assumed))|
  }

  lemma {:induction false} LengthIs(frame: Frame, images: seq<PendingImage>, stored: StoredBlocks, assumed: nat)
    requires AllInRange(images, stored) && Consecutive(stored.owners, 0, |stored.blocks|)
    ensures LengthAt(frame, images, stored, assumed)
         == FixedHeader(frame, images, stored) + WidthSum(stored.blocks, PREAMBLE_LEN + assumed, 0, |stored.blocks|)
  {
    hide ImagePieces;
    hide FixedImages;
    hide WidthSum;
    hide RawAttributes;
    hide PrintAttributes;
    hide Print;
    hide PrintAll;
    hide Utf8;
    hide Consecutive;
    var base := PREAMBLE_LEN + assumed;
    var pieces := ImagePieces(images, stored, Attached(base));
    var raw := RawAttributes(frame.attributes);
    Utf8Concat(XML_DECLARATION, Print(HeaderPiece(frame, images, stored, Attached(base))));
    NodeLength("xisf", raw, pieces + frame.trailer);
    PrintAllLength(pieces, frame.trailer);
    assert stored.owners[0..] == stored.owners && pieces[0..] == pieces;
    ImagesLength(images, stored, base, 0, 0);
  }

  // -------------------------------------------------- the fixed point

  lemma {:induction false} WidthSumMonotone(blocks: seq<StoredBlock>, a: nat, b: nat, from: nat)
    requires a <= b && from <= |blocks|
    ensures WidthSum(blocks, a, from, |blocks|) <= WidthSum(blocks, b, from, |blocks|)
    decreases |blocks| - from
  {
    if from < |blocks| {
      Text.WidthMonotone(a + Offset(blocks, from), b + Offset(blocks, from), 10);
      WidthSumMonotone(blocks, a, b, from + 1);
    }
  }

  lemma {:induction false} OffsetBound(blocks: seq<StoredBlock>, i: nat)
    requires i <= |blocks|
    ensures Offset(blocks, i) <= |BlockBytes(blocks)|
    decreases |blocks| - i
  {
    if i == |blocks| {
      assert blocks[..i] == blocks;
    } else {
      OffsetStep(blocks, i);
      OffsetBound(blocks, i + 1);
    }
  }

  lemma {:induction false} WidthSumBound(blocks: seq<StoredBlock>, base: nat, from: nat, width: nat)
    requires from <= |blocks| && Width(base + |BlockBytes(blocks)|) <= width
    ensures WidthSum(blocks, base, from, |blocks|) <= (|blocks| - from) * width
    decreases |blocks| - from
  {
    if from < |blocks| {
      OffsetBound(blocks, from);
      Text.WidthMonotone(base + Offset(blocks, from), base + |BlockBytes(blocks)|, 10);
      WidthSumBound(blocks, base, from + 1, width);
      assert (|blocks| - from) * width == width + (|blocks| - from - 1) * width;
    }
  }

  /** Powers of ten outgrow squares. */
  lemma {:induction false} PowerOutgrows(w: nat)
    requires w >= 1
    ensures Power(10, w) > w * w + w
  {
    if w == 1 {
      assert Power(10, 1) == 10 * Power(10, 0);
    } else {
      PowerOutgrows(w - 1);
      var v := w - 1;
      assert Power(10, w) == 10 * Power(10, v);
      assert w * w == v * v + 2 * v + 1;
    }
  }

  /** The length as a number: the fixed text, and the digits of every position. */
  function LengthOf(fixed: nat, blocks: seq<StoredBlock>, assumed: nat): nat
  {
    fixed + WidthSum(blocks, PREAMBLE_LEN + assumed, 0, |blocks|)
  }

  /** A length no assumption below it can exceed, which exists because digits grow slower than numbers. */
  function CeilingOf(fixed: nat, blocks: seq<StoredBlock>): nat
  {
    fixed + |blocks| * (17 + fixed + |BlockBytes(blocks)| + |blocks|)
  }

  lemma {:induction false} CeilingArithmetic(n: nat, fixed: nat, total: nat, assumed: nat)
    requires assumed <= fixed + n * (17 + fixed + total + n)
    ensures Width(PREAMBLE_LEN + assumed + total) <= 17 + fixed + total + n
  {
    var w := 17 + fixed + total + n;
    PowerOutgrows(w);
    assert n * w <= w * w;
    Text.WidthBound(PREAMBLE_LEN + assumed + total, 10, w);
  }

  lemma {:induction false} LengthBelowCeiling(fixed: nat, blocks: seq<StoredBlock>, assumed: nat)
    requires assumed <= CeilingOf(fixed, blocks)
    ensures LengthOf(fixed, blocks, assumed) <= CeilingOf(fixed, blocks)
  {
    CeilingArithmetic(|blocks|, fixed, |BlockBytes(blocks)|, assumed);
    WidthSumBound(blocks, PREAMBLE_LEN + assumed, 0, 17 + fixed + |BlockBytes(blocks)| + |blocks|);
  }

  lemma {:induction false} LengthMonotone(fixed: nat, blocks: seq<StoredBlock>, a: nat, b: nat)
    requires a <= b
    ensures LengthOf(fixed, blocks, a) <= LengthOf(fixed, blocks, b)
  {
    WidthSumMonotone(blocks, PREAMBLE_LEN + a, PREAMBLE_LEN + b, 0);
  }

  /** `length` is at or below every length that is consistent with itself. */
  ghost predicate BelowSettled(fixed: nat, blocks: seq<StoredBlock>, length: nat)
  {
    forall l: nat :: LengthOf(fixed, blocks, l) == l ==> length <= l
  }

  lemma {:induction false} BelowSettledNext(fixed: nat, blocks: seq<StoredBlock>, assumed: nat)
    requires BelowSettled(fixed, blocks, assumed)
    ensures BelowSettled(fixed, blocks, LengthOf(fixed, blocks, assumed))
  {
    forall l: nat | LengthOf(fixed, blocks, l) == l
      ensures LengthOf(fixed, blocks, assumed) <= l
    {
      LengthMonotone(fixed, blocks, assumed, l);
    }
  }

  /** What the loop keeps: the assumption climbs, stays below the ceiling, and never passes a settled length. */
  ghost predicate Climbing(fixed: nat, blocks: seq<StoredBlock>, assumed: nat)
  {
    assumed <= LengthOf(fixed, blocks, assumed) && assumed <= CeilingOf(fixed, blocks)
    && BelowSettled(fixed, blocks, assumed)
  }

  lemma {:induction false} ClimbingNext(fixed: nat, blocks: seq<StoredBlock>, assumed: nat)
    requires Climbing(fixed, blocks, assumed)
    ensures Climbing(fixed, blocks, LengthOf(fixed, blocks, assumed))
  {
    LengthMonotone(fixed, blocks, assumed, LengthOf(fixed, blocks, assumed));
    LengthBelowCeiling(fixed, blocks, assumed);
    BelowSettledNext(fixed, blocks, assumed);
  }

  /** A header at the positions its own length implies, and no longer than any other that is. */
  ghost predicate Settled(frame: Frame, images: seq<PendingImage>, stored: StoredBlocks, header: seq<byte>, fixed: nat)
    requires AllInRange(images, stored)
  {
    header == HeaderBytes(frame, images, stored, Attached(PREAMBLE_LEN + |header|))
    && LengthOf(fixed, stored.blocks, |header|) == |header| && BelowSettled(fixed, stored.blocks, |header|)
  }

  /**
    The positioning loop: render, compare the length with the one assumed, and render again. It ends,
    and with the least length that is consistent with the positions the header holds.
   */
  method SettleHeader(frame: Frame, images: seq<PendingImage>, stored: StoredBlocks,
      ghost fixed: nat) returns (r: Result<seq<byte>>)
    requires AllInRange(images, stored)
    requires forall assumed: nat :: LengthAt(frame, images, stored, assumed) == LengthOf(fixed, stored.blocks, assumed)
    ensures !Renderable(images) ==> r == Err(InvalidArgument)
    ensures Renderable(images) ==> r.Ok? && Settled(frame, images, stored, r.value, fixed)
  {
    hide Renderable;
    hide HeaderBytes;
    hide LengthOf;
    hide CeilingOf;
    r := Render(frame, images, stored, Attached(PREAMBLE_LEN));
    if r.Err? {
      return;
    }
    var assumed := |r.value|;
    assert assumed == LengthAt(frame, images, stored, 0);
    assert 0 <= LengthOf(fixed, stored.blocks, 0) && 0 <= CeilingOf(fixed, stored.blocks);
    assert Climbing(fixed, stored.blocks, 0);
    ClimbingNext(fixed, stored.blocks, 0);
    while true
      invariant Renderable(images) && Climbing(fixed, stored.blocks, assumed)
      decreases CeilingOf(fixed, stored.blocks) - assumed
    {
      r := Render(frame, images, stored, Attached(PREAMBLE_LEN + assumed));
      if r.Err? {
        return;
      }
      assert |r.value| == LengthAt(frame, images, stored, assumed);
      if |r.value| == assumed {
        break;
      }
      ClimbingNext(fixed, stored.blocks, assumed);
      assumed := |r.value|;
    }
  }
}
