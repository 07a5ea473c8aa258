/** Single elements of a written header as they are read: block references, and elements without surprises. */
module WrittenElements {
  import opened Primitives
  import opened Locations
  import opened BlockAttributes
  import opened BlockCodec
  import opened HeaderTree
  import opened HeaderMachine
  import opened HeaderParser
  import opened HeaderDocument
  import opened HeaderTrees
  import opened MonolithicWriter

  // -------------------------------------------------- one element's block reference

  /** A key that says nothing about a data block and is no identifier. */
  predicate PlainKey(key: string)
  {
    ':' !in key && key != "location" && key != "compression" && key != "subblocks" && key != "checksum"
    && key != "byteOrder" && key != "encoding" && key != "uid"
  }

  predicate PlainPairs(pairs: seq<(string, string)>)
  {
    forall i :: 0 <= i < |pairs| ==> PlainKey(pairs[i].0)
  }

  lemma {:induction false} ReadPairsConcat(own: Own, a: seq<(string, string)>, b: seq<(string, string)>)
    ensures ReadPairs(own, a + b) == var mid :- ReadPairs(own, a); ReadPairs(mid, b)
    decreases |a|
  {
    if a == [] {
      assert a + b == b;
    } else {
      assert (a + b)[1..] == a[1..] + b;
      var next := ReadAttribute(own, a[0].0, a[0].1);
      if next.Ok? {
        ReadPairsConcat(next.value, a[1..], b);
      }
    }
  }

  lemma {:induction false} PlainPairsSayNothing(own: Own, pairs: seq<(string, string)>)
    requires PlainPairs(pairs)
    ensures ReadPairs(own, pairs) == Ok(own)
    decreases |pairs|
  {
    if pairs != [] {
      assert PlainKey(pairs[0].0);
      PlainPairsSayNothing(own, pairs[1..]);
    }
  }

  lemma {:induction false} ReadOnePair(own: Own, key: string, value: string)
    ensures ReadPairs(own, [(key, value)]) == ReadAttribute(own, key, value)
  {
    var pairs := [(key, value)];
    assert pairs[1..] == [];
    var next := ReadAttribute(own, key, value);
    assert next.Ok? ==> ReadPairs(next.value, []) == Ok(next.value);
  }

  /** A block whose two attributes read back as written. */
  predicate Describable(b: StoredBlock)
  {
    (b.compression.Some? ==> b.compression.value.subblocks == [] && !b.compression.value.codec.Other?)
    && (b.checksum.Some? ==> |b.checksum.value.digest| == DigestLen(b.checksum.value.algorithm))
  }

  lemma {:induction false} BlockPairsRead(b: StoredBlock)
    requires Describable(b)
    ensures ReadPairs(Own(NO_DATA, None), BlockPairs(b))
         == Ok(Own(NO_DATA.(compression := b.compression, checksum := b.checksum), None))
  {
    var first := if b.compression.Some? then [("compression", CompressionText(b.compression.value))] else [];
    var second := if b.checksum.Some? then [("checksum", ChecksumText(b.checksum.value))] else [];
    var start := Own(NO_DATA, None);
    var mid := Own(NO_DATA.(compression := b.compression), None);
    ReadPairsConcat(start, first, second);
    if b.compression.Some? {
      CompressionReadsBackExactly(b.compression.value);
      ReadOnePair(start, "compression", CompressionText(b.compression.value));
    }
    assert ReadPairs(start, first) == Ok(mid);
    if b.checksum.Some? {
      ChecksumReadsBackExactly(b.checksum.value);
      ReadOnePair(mid, "checksum", ChecksumText(b.checksum.value));
    }
  }

  /** The block reference of an element that locates a block. */
  function Located(location: Location, b: StoredBlock): DataRef
  {
    DataRef(Some(location), b.compression, b.checksum, Little, None, None)
  }

  /** What the attributes written for a block say, when they are read. */
  lemma {:induction false} ElementPairsRead(own: seq<(string, string)>, addressing: Addressing,
      blocks: seq<StoredBlock>, i: nat, location: Location)
    requires PlainPairs(own) && i < |blocks| && Describable(blocks[i])
    requires ParseLocation(Locator(addressing, blocks, i)) == Ok(location)
    ensures OwnData(ElementPairs(own, addressing, blocks, i)) == Ok(Located(location, blocks[i]))
  {
    var b, start := blocks[i], Own(NO_DATA, None);
    var mid := Own(NO_DATA.(compression := b.compression, checksum := b.checksum), None);
    var last := [("location", Locator(addressing, blocks, i))];
    ReadPairsConcat(start, own + BlockPairs(b), last);
    ReadPairsConcat(start, own, BlockPairs(b));
    PlainPairsSayNothing(start, own);
    BlockPairsRead(b);
    ReadOnePair(mid, "location", Locator(addressing, blocks, i));
  }

  /** The element a core tag with these attributes makes. */
  function CoreElement(name: string, pairs: seq<(string, string)>, data: DataRef): Element
  {
    Element(name, Some(XISF_NAMESPACE), pairs, data, [])
  }

  lemma {:induction false} CoreTagReads(name: string, pairs: seq<(string, string)>, data: DataRef)
    requires ':' !in name && (forall i :: 0 <= i < |pairs| ==> ':' !in pairs[i].0) && OwnData(pairs) == Ok(data)
    ensures TagElement(CoreTag(name, pairs)) == Ok(CoreElement(name, pairs, data))
  {
    PairsBack(pairs);
    TagElementOf(CoreTag(name, pairs), Some(XISF_NAMESPACE), data);
  }

  lemma {:induction false} ElementKeys(own: seq<(string, string)>, addressing: Addressing, blocks: seq<StoredBlock>,
      i: nat)
    requires PlainPairs(own) && i < |blocks|
    ensures var pairs := ElementPairs(own, addressing, blocks, i);
      forall k :: 0 <= k < |pairs| ==> ':' !in pairs[k].0 && pairs[k].0 != "uid"
  {
    var pairs, more := ElementPairs(own, addressing, blocks, i), BlockPairs(blocks[i]);
    forall k | 0 <= k < |pairs|
      ensures ':' !in pairs[k].0 && pairs[k].0 != "uid"
    {
      if k < |own| {
        assert pairs[k] == own[k] && PlainKey(own[k].0);
      } else if k < |own| + |more| {
        assert pairs[k] == more[k - |own|];
      }
    }
  }

  // -------------------------------------------------- elements without surprises

  /** The elements a run of document elements stands for. */
  function BuiltAll(items: seq<Piece>): (es: seq<Element>)
    requires forall i :: 0 <= i < |items| ==> IsElement(items[i]) && Meaningful(items[i])
    ensures |es| == |items| && forall i :: 0 <= i < |items| ==> es[i] == Built(items[i])
  {
    seq(|items|, i requires 0 <= i < |items| => Built(items[i]))
  }

  /** A run of elements none of which carries its parent's data. */
  ghost predicate Ordinary(items: seq<Piece>)
  {
    forall i :: 0 <= i < |items| ==> IsElement(items[i]) && Meaningful(items[i]) && !Built(items[i]).Is("Data")
  }

  lemma {:induction false} BuiltAllConcat(a: seq<Piece>, b: seq<Piece>)
    requires Ordinary(a) && Ordinary(b)
    ensures Ordinary(a + b) && BuiltAll(a + b) == BuiltAll(a) + BuiltAll(b)
  {
  }

  /** Such a run only adds children. */
  lemma {:induction false} OrdinaryFills(e: Element, items: seq<Piece>)
    requires Ordinary(items)
    ensures MeaningfulIn(items) && Filled(e, items) == e.(children := e.children + BuiltAll(items))
    decreases |items|
  {
    if items == [] {
      assert e.children + [] == e.children;
    } else {
      OrdinaryRest(items);
      var next := e.(children := e.children + [Built(items[0])]);
      OrdinaryFills(next, items[1..]);
      FilledFirst(e, items, next);
      ChildrenAppend(e, [Built(items[0])], BuiltAll(items[1..]));
    }
  }

  lemma {:induction false} ChildrenAppend(e: Element, a: seq<Element>, b: seq<Element>)
    ensures var next := e.(children := e.children + a);
      next.(children := next.children + b) == e.(children := e.children + (a + b))
  {
    assert e.children + a + b == e.children + (a + b);
  }

  lemma {:induction false} OrdinaryRest(items: seq<Piece>)
    requires Ordinary(items) && items != []
    ensures IsElement(items[0]) && Meaningful(items[0]) && !Built(items[0]).Is("Data") && Ordinary(items[1..])
    ensures BuiltAll(items) == [Built(items[0])] + BuiltAll(items[1..])
  {
  }

  lemma {:induction false} FilledFirst(e: Element, items: seq<Piece>, next: Element)
    requires items != [] && IsElement(items[0]) && Meaningful(items[0]) && !Built(items[0]).Is("Data")
    requires next == e.(children := e.children + [Built(items[0])]) && MeaningfulIn(items[1..])
    ensures MeaningfulIn(items) && Filled(e, items) == Filled(next, items[1..])
  {
    assert Adopt(e, Built(items[0])) == next;
  }

  lemma {:induction false} NamedConcat(a: seq<Element>, b: seq<Element>, name: string)
    ensures Named(a + b, name) == Named(a, name) + Named(b, name)
  {
    if a == [] {
      assert a + b == b;
    } else {
      assert (a + b)[1..] == a[1..] + b;
      NamedConcat(a[1..], b, name);
    }
  }

  lemma {:induction false} NamedNone(es: seq<Element>, name: string)
    requires forall i :: 0 <= i < |es| ==> es[i].name != name
    ensures Named(es, name) == []
  {
    if es != [] {
      NamedNone(es[1..], name);
    }
  }

  lemma {:induction false} NamedAll(es: seq<Element>, name: string)
    requires forall i :: 0 <= i < |es| ==> es[i].Is(name)
    ensures Named(es, name) == es
  {
    if es != [] {
      NamedAll(es[1..], name);
      assert es == [es[0]] + es[1..];
    }
  }

  predicate Unidentified(e: Element)
  {
    forall x <- Preorder(e) :: x.Attr("uid") == None
  }

  lemma {:induction false} UnidentifiedAll(es: seq<Element>)
    requires forall i :: 0 <= i < |es| ==> Unidentified(es[i])
    ensures forall x <- PreorderAll(es) :: x.Attr("uid") == None
  {
    if es != [] {
      assert Unidentified(es[0]);
      UnidentifiedAll(es[1..]);
    }
  }

  lemma {:induction false} NoUidKey(pairs: seq<(string, string)>)
    requires forall k :: 0 <= k < |pairs| ==> pairs[k].0 != "uid"
    ensures Lookup(pairs, "uid") == None
  {
    if pairs != [] {
      NoUidKey(pairs[1..]);
    }
  }

  /** An element of the surroundings: not one of those that own or carry blocks, and without identifiers. */
  ghost predicate Surrounding(piece: Piece)
  {
    IsElement(piece) && Meaningful(piece) && Unidentified(Built(piece))
    && var name := Built(piece).name;
       name != "Data" && name != "Image" && name != "ICCProfile" && name != "Thumbnail"
  }

  ghost predicate AllSurrounding(pieces: seq<Piece>)
  {
    forall i :: 0 <= i < |pieces| ==> Surrounding(pieces[i])
  }

  lemma {:induction false} NoPlainUid(pairs: seq<(string, string)>)
    requires PlainPairs(pairs)
    ensures Lookup(pairs, "uid") == None
  {
    assert forall i :: 0 <= i < |pairs| ==> PlainKey(pairs[i].0);
    NoUidKey(pairs);
  }

  lemma {:induction false} ChildlessUnidentified(e: Element)
    requires e.children == [] && e.Attr("uid") == None
    ensures Unidentified(e)
  {
    assert Preorder(e) == [e] + PreorderAll([]) == [e];
  }

  lemma {:induction false} PlainLeafSurrounds(name: string, pairs: seq<(string, string)>)
    requires PlainPairs(pairs) && ':' !in name
    requires name != "Data" && name != "Image" && name != "ICCProfile" && name != "Thumbnail"
    ensures Surrounding(Leaf(CoreTag(name, pairs)))
  {
    assert forall i :: 0 <= i < |pairs| ==> PlainKey(pairs[i].0);
    PlainPairsSayNothing(Own(NO_DATA, None), pairs);
    CoreTagReads(name, pairs, NO_DATA);
    NoPlainUid(pairs);
    ChildlessUnidentified(CoreElement(name, pairs, NO_DATA));
  }
}
