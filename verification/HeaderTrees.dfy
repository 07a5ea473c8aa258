/** Trees written as documents and read back: serialization and the stack machine are inverse. */
module HeaderTrees {
  import opened Primitives
  import opened Text
  import opened XmlText
  import opened HeaderTree
  import opened HeaderMachine
  import opened HeaderParser
  import opened HeaderDocument

  /** A header element as a document has it: its tag, its character data, and its children. */
  datatype Tree = Tree(
    name: string, namespace: Option<string>, attributes: seq<(string, string)>, text: string, children: seq<Tree>)

  /** Names without a prefix, and attributes that mean something. */
  predicate Readable(t: Tree)
    decreases t, 1
  {
    ':' !in t.name && (forall i :: 0 <= i < |t.attributes| ==> ':' !in t.attributes[i].0)
    && OwnData(t.attributes).Ok? && ReadableAll(t.children)
  }

  predicate ReadableAll(ts: seq<Tree>)
    decreases ts, 0
  {
    ts == [] || (Readable(ts[0]) && ReadableAll(ts[1..]))
  }

  // -------------------------------------------------- writing

  function RawAttributes(pairs: seq<(string, string)>): (raw: seq<RawAttribute>)
    ensures |raw| == |pairs|
  {
    if pairs == [] then [] else [Attribute(pairs[0].0, pairs[0].1)] + RawAttributes(pairs[1..])
  }

  /** The tag of an element of the format itself. */
  function CoreTag(name: string, pairs: seq<(string, string)>): Tag
  {
    Tag(name, Bound(XISF_NAMESPACE), RawAttributes(pairs))
  }

  function TagOf(t: Tree): Tag
  {
    Tag(t.name, if t.namespace.Some? then Bound(t.namespace.value) else Unbound, RawAttributes(t.attributes))
  }

  /** Character data split as a lexer splits it: runs of text, and references on their own. */
  function Lexed(raw: string): (pieces: seq<Piece>)
    requires ReadReferences(raw).Some?
    decreases |raw|
  {
    if raw == [] then []
    else if raw[0] == '&' then
      var end := IndexOf(raw[1..], ';');
      [Ref(raw[1..][..end])] + Lexed(raw[end + 2..])
    else
      var end := IndexOf(raw, '&');
      RunReads(raw, end);
      [Words(raw[..end])] + Lexed(raw[end..])
  }

  lemma {:induction false} RunReads(raw: string, n: nat)
    requires n <= |raw| && ReadReferences(raw).Some?
    requires forall i :: 0 <= i < n ==> raw[i] != '&'
    ensures ReadReferences(raw[n..]).Some? && ReadReferences(raw).value == raw[..n] + ReadReferences(raw[n..]).value
    decreases n
  {
    hide ReadReferences;
    if n == 0 {
      assert raw[0..] == raw;
      assert raw[..0] + ReadReferences(raw).value == ReadReferences(raw).value;
    } else {
      PlainHeadReads(raw);
      RunReads(raw[1..], n - 1);
      assert raw[1..][n - 1..] == raw[n..];
      assert [raw[0]] + (raw[1..][..n - 1] + ReadReferences(raw[n..]).value)
        == raw[..n] + ReadReferences(raw[n..]).value;
    }
  }

  lemma {:induction false} PlainHeadReads(raw: string)
    requires raw != [] && raw[0] != '&' && ReadReferences(raw).Some?
    ensures ReadReferences(raw[1..]).Some? && ReadReferences(raw).value == [raw[0]] + ReadReferences(raw[1..]).value
  {
    assert raw[0] != '<';
  }

  /** A tree as a document: its character data, escaped, and then its children. */
  function Written(t: Tree): Piece
    decreases t, 1
  {
    TextSurvives(t.text, false);
    Node(TagOf(t), Lexed(Escaped(t.text, false)) + WrittenAll(t.children))
  }

  function WrittenAll(ts: seq<Tree>): (pieces: seq<Piece>)
    ensures |pieces| == |ts| && forall i :: 0 <= i < |ts| ==> pieces[i].Node?
    decreases ts, 0
  {
    if ts == [] then [] else [Written(ts[0])] + WrittenAll(ts[1..])
  }

  // -------------------------------------------------- reading

  function Read(e: Element): Tree
    decreases e, 1
  {
    Tree(e.name, e.namespace, e.attributes, e.data.text.GetOr(""), ReadAll(e.children))
  }

  function ReadAll(es: seq<Element>): seq<Tree>
    decreases es, 0
  {
    if es == [] then [] else [Read(es[0])] + ReadAll(es[1..])
  }

  predicate IsData(t: Tree) { t.name == "Data" && (t.namespace.None? || t.namespace.value == XISF_NAMESPACE) }

  /** The text an element ends with: blank text gives way to that of its `<Data>` children in turn. */
  function TextAfter(text: string, children: seq<Tree>): string
    decreases |children|
  {
    if children == [] then text
    else TextAfter(if IsData(children[0]) && Trim(text) == "" then children[0].text else text, children[1..])
  }

  /** What a tree reads back as: itself, but for text promoted out of `<Data>` children. */
  function PromotedTree(t: Tree): Tree
    decreases t, 1
  {
    var children := PromotedAll(t.children);
    t.(text := TextAfter(t.text, children), children := children)
  }

  function PromotedAll(ts: seq<Tree>): (out: seq<Tree>)
    ensures |out| == |ts|
    decreases ts, 0
  {
    if ts == [] then [] else [PromotedTree(ts[0])] + PromotedAll(ts[1..])
  }

  predicate WithoutData(t: Tree)
    decreases t, 1
  {
    WithoutDataAll(t.children)
  }

  predicate WithoutDataAll(ts: seq<Tree>)
    decreases ts, 0
  {
    ts == [] || (!IsData(ts[0]) && WithoutData(ts[0]) && WithoutDataAll(ts[1..]))
  }

  lemma {:induction false} PromotedPlain(t: Tree)
    requires WithoutData(t)
    ensures PromotedTree(t) == t
    decreases t, 1
  {
    PromotedPlainAll(t.children);
    TextKept(t.text, t.children);
  }

  lemma {:induction false} PromotedPlainAll(ts: seq<Tree>)
    requires WithoutDataAll(ts)
    ensures PromotedAll(ts) == ts
    decreases ts, 0
  {
    if ts != [] {
      PromotedPlain(ts[0]);
      PromotedPlainAll(ts[1..]);
      assert ts == [ts[0]] + ts[1..];
    }
  }

  lemma {:induction false} TextKept(text: string, ts: seq<Tree>)
    requires WithoutDataAll(ts)
    ensures TextAfter(text, ts) == text
  {
    if ts != [] {
      TextKept(text, ts[1..]);
    }
  }

  // -------------------------------------------------- the round trip

  lemma {:induction false} PairsBack(pairs: seq<(string, string)>)
    requires forall i :: 0 <= i < |pairs| ==> ':' !in pairs[i].0
    ensures WellFormed(RawAttributes(pairs)) && Pairs(RawAttributes(pairs)) == pairs
  {
    if pairs != [] {
      var raw, rest := RawAttributes(pairs), pairs[1..];
      assert forall i :: 0 <= i < |rest| ==> rest[i] == pairs[i + 1];
      PairsBack(rest);
      PairsStep(raw, RawAttributes(rest), pairs[0]);
    }
  }

  lemma {:induction false} PairsStep(raw: seq<RawAttribute>, rest: seq<RawAttribute>, pair: (string, string))
    requires WellFormed(rest) && raw == [Attribute(pair.0, pair.1)] + rest && LocalName(pair.0) == pair.0
    ensures WellFormed(raw) && Pairs(raw) == [pair] + Pairs(rest)
  {
    assert raw[1..] == rest && raw[0] == Attribute(pair.0, pair.1);
    assert forall i :: 0 < i < |raw| ==> raw[i] == rest[i - 1];
  }

  /** The element of a tree's tag alone. */
  lemma {:induction false} TagReads(t: Tree)
    requires Readable(t)
    ensures TagElement(TagOf(t)) == Ok(Element(t.name, t.namespace, t.attributes, OwnData(t.attributes).value, []))
  {
    PairsBack(t.attributes);
    TagElementOf(TagOf(t), t.namespace, OwnData(t.attributes).value);
  }

  lemma {:induction false} TagElementOf(tag: Tag, ns: Option<string>, data: DataRef)
    requires NamespaceOf(tag.namespace) == Ok(ns) && WellFormed(tag.attributes)
    requires OwnData(Pairs(tag.attributes)) == Ok(data)
    ensures TagElement(tag) == Ok(Element(LocalName(tag.name), ns, Pairs(tag.attributes), data, []))
  {
  }

  lemma {:induction false} Regrouped(piece: Piece, a: seq<Piece>, b: seq<Piece>)
    ensures ([piece] + a) + b == [piece] + (a + b)
  {
  }

  lemma {:induction false} AppendTwice(e: Element, a: string, b: string)
    ensures AppendText(AppendText(e, a), b) == AppendText(e, a + b)
  {
    if a == "" {
      assert a + b == b;
    } else if b == "" {
      assert a + b == a;
    } else {
      assert (e.data.text.GetOr("") + a) + b == e.data.text.GetOr("") + (a + b);
    }
  }

  /** However character data is split into runs and references, the element gets the text it stands for. */
  lemma {:induction false} LexedFills(e: Element, raw: string, rest: seq<Piece>)
    requires ReadReferences(raw).Some? && MeaningfulIn(rest)
    ensures MeaningfulIn(Lexed(raw) + rest)
    ensures Filled(e, Lexed(raw) + rest) == Filled(AppendText(e, ReadReferences(raw).value), rest)
    decreases |raw|
  {
    assert ReadReferences([]) == Some([]) && Lexed([]) == [] && AppendText(e, []) == e;
    hide ReadReferences;
    hide Lexed;
    hide LexHead;
    hide AppendText;
    hide Filled;
    hide Meaningful;
    hide MeaningfulIn;
    if raw == [] {
      assert [] + rest == rest;
    } else {
      var (piece, text, tail) := LexHead(raw);
      LexHeadReads(raw);
      Regrouped(piece, Lexed(tail), rest);
      LexedFills(AppendText(e, text), tail, rest);
      FillText(e, piece, text, Lexed(tail) + rest);
      AppendTwice(e, text, ReadReferences(tail).value);
    }
  }

  lemma {:induction false} FillText(e: Element, piece: Piece, text: string, rest: seq<Piece>)
    requires MeaningfulIn(rest)
    requires piece == Words(text) || (piece.Ref? && ResolveEntity(piece.name) == Some(text))
    ensures MeaningfulIn([piece] + rest) && Filled(e, [piece] + rest) == Filled(AppendText(e, text), rest)
  {
    assert ([piece] + rest)[1..] == rest;
  }

  /** The first piece of some character data, the text it stands for, and what follows it. */
  function LexHead(raw: string): (Piece, string, string)
    requires raw != [] && ReadReferences(raw).Some?
  {
    if raw[0] == '&' then
      var end := IndexOf(raw[1..], ';');
      (Ref(raw[1..][..end]), ResolveEntity(raw[1..][..end]).value, raw[end + 2..])
    else
      var end := IndexOf(raw, '&');
      (Words(raw[..end]), raw[..end], raw[end..])
  }

  lemma {:induction false} LexHeadReads(raw: string)
    requires raw != [] && ReadReferences(raw).Some?
    ensures var (piece, text, tail) := LexHead(raw);
      |tail| < |raw| && ReadReferences(tail).Some? && ReadReferences(raw).value == text + ReadReferences(tail).value
      && Lexed(raw) == [piece] + Lexed(tail) && Meaningful(piece)
      && (piece.Words? ==> piece.text == text) && (piece.Ref? ==> ResolveEntity(piece.name) == Some(text))
      && (piece.Words? || piece.Ref?)
  {
    if raw[0] != '&' {
      RunReads(raw, IndexOf(raw, '&'));
    }
  }

  lemma {:induction false} WrittenMeans(t: Tree)
    requires Readable(t)
    ensures Meaningful(Written(t))
    decreases t, 1
  {
    TagReads(t);
    WrittenAllMeans(t.children);
    TextSurvives(t.text, false);
    LexedFills(TagElement(TagOf(t)).value, Escaped(t.text, false), WrittenAll(t.children));
  }

  lemma {:induction false} WrittenAllMeans(ts: seq<Tree>)
    requires ReadableAll(ts)
    ensures MeaningfulIn(WrittenAll(ts))
    decreases ts, 0
  {
    if ts != [] {
      WrittenMeans(ts[0]);
      WrittenAllMeans(ts[1..]);
      assert WrittenAll(ts)[1..] == WrittenAll(ts[1..]);
    }
  }

  /** Reading the element a written tree stands for gives the tree back, text promoted. */
  lemma {:induction false} TreeReadsBack(t: Tree)
    requires Readable(t)
    ensures Meaningful(Written(t)) && Read(Built(Written(t))) == PromotedTree(t)
    decreases t, 2
  {
    WrittenMeans(t);
    TagReads(t);
    TextSurvives(t.text, false);
    WrittenAllMeans(t.children);
    var e := TagElement(TagOf(t)).value;
    LexedFills(e, Escaped(t.text, false), WrittenAll(t.children));
    TagHasNoText(t.attributes);
    FreshText(e, t.text);
    ChildrenReadBack(AppendText(e, t.text), t.children);
    assert [] + PromotedAll(t.children) == PromotedAll(t.children);
    assert Built(Written(t)) == Filled(AppendText(e, t.text), WrittenAll(t.children));
  }

  lemma {:induction false} FreshText(e: Element, text: string)
    requires e.data.text == None
    ensures AppendText(e, text).data.text.GetOr("") == text
  {
    assert "" + text == text;
  }

  /** One element is another with more children, read as these trees, and its text promoted accordingly. */
  ghost predicate Gains(full: Element, e: Element, ts: seq<Tree>)
  {
    full.name == e.name && full.namespace == e.namespace && full.attributes == e.attributes
    && ReadAll(full.children) == ReadAll(e.children) + ts
    && full.data.text.GetOr("") == TextAfter(e.data.text.GetOr(""), ts)
  }

  lemma {:induction false} TextAfterCons(text: string, first: Tree, rest: seq<Tree>)
    ensures TextAfter(text, [first] + rest) == TextAfter(TextAfter(text, [first]), rest)
  {
    assert ([first] + rest)[1..] == rest && [first][1..] == [];
    assert ([first] + rest)[0] == first;
    var next := if IsData(first) && Trim(text) == "" then first.text else text;
    assert TextAfter(text, [first]) == TextAfter(next, []) == next;
  }

  lemma {:induction false} GainsMore(full: Element, mid: Element, e: Element, first: Tree, rest: seq<Tree>)
    requires Gains(mid, e, [first]) && Gains(full, mid, rest)
    ensures Gains(full, e, [first] + rest)
  {
    hide ReadAll;
    hide Read;
    TextAfterCons(e.data.text.GetOr(""), first, rest);
    assert ReadAll(e.children) + ([first] + rest) == (ReadAll(e.children) + [first]) + rest;
  }

  /** Adopting written children one by one. */
  lemma {:induction false} ChildrenReadBack(e: Element, ts: seq<Tree>)
    requires ReadableAll(ts)
    ensures MeaningfulIn(WrittenAll(ts))
    ensures Gains(Filled(e, WrittenAll(ts)), e, PromotedAll(ts))
    decreases ts, 1
  {
    WrittenAllMeans(ts);
    if ts == [] {
      assert ReadAll(e.children) + [] == ReadAll(e.children);
    } else {
      TreeReadsBack(ts[0]);
      var child := Built(Written(ts[0]));
      FilledWritten(e, ts);
      AdoptReads(e, child);
      ChildrenReadBack(Adopt(e, child), ts[1..]);
      GainsMore(Filled(e, WrittenAll(ts)), Adopt(e, child), e, Read(child), PromotedAll(ts[1..]));
    }
  }

  lemma {:induction false} FilledWritten(e: Element, ts: seq<Tree>)
    requires ts != [] && MeaningfulIn(WrittenAll(ts)) && Meaningful(Written(ts[0]))
    ensures MeaningfulIn(WrittenAll(ts[1..]))
    ensures Filled(e, WrittenAll(ts)) == Filled(Adopt(e, Built(Written(ts[0]))), WrittenAll(ts[1..]))
  {
    assert WrittenAll(ts)[1..] == WrittenAll(ts[1..]);
  }

  /** What adopting one child does to the tree that is read. */
  lemma {:induction false} AdoptReads(e: Element, child: Element)
    ensures Gains(Adopt(e, child), e, [Read(child)])
  {
    ReadSnoc(e.children, child);
    assert [Read(child)][1..] == [];
    assert Trim("") == "";
  }

  lemma {:induction false} ReadSnoc(es: seq<Element>, e: Element)
    ensures ReadAll(es + [e]) == ReadAll(es) + [Read(e)]
  {
    if es == [] {
      assert ReadAll([e]) == [Read(e)] + ReadAll([]);
      assert [] + [e] == [e];
    } else {
      assert (es + [e])[1..] == es[1..] + [e];
      ReadSnoc(es[1..], e);
    }
  }

  lemma {:induction false} TagHasNoText(pairs: seq<(string, string)>)
    requires OwnData(pairs).Ok?
    ensures OwnData(pairs).value.text == None
  {
    ReadingKeepsText(Own(NO_DATA, None), pairs);
  }

  lemma {:induction false} ReadingKeepsText(own: Own, pairs: seq<(string, string)>)
    requires ReadPairs(own, pairs).Ok?
    ensures ReadPairs(own, pairs).value.data.text == own.data.text
    decreases |pairs|
  {
    if pairs != [] {
      ReadingKeepsText(ReadAttribute(own, pairs[0].0, pairs[0].1).value, pairs[1..]);
    }
  }

  // -------------------------------------------------- documents that are one tree

  /** A document of one tree, within the limits, is read back as that tree. */
  lemma {:induction false} DocumentReadsBack(t: Tree)
    requires Readable(t) && FitsIn(INITIAL, [Written(t)])
    ensures Run(INITIAL, EventsIn([Written(t)])).Ok?
    ensures var s := Run(INITIAL, EventsIn([Written(t)])).value;
      s.stack == [] && s.root.Some? && Read(s.root.value) == PromotedTree(t)
      && (WithoutData(t) ==> Read(s.root.value) == t)
  {
    var items := [Written(t)];
    RunPieces(INITIAL, items);
    TopRoot(INITIAL, items);
    TreeReadsBack(t);
    if WithoutData(t) {
      PromotedPlain(t);
    }
  }

  /** `xisf` elements nested `depth` deep below the root, the innermost an empty tag. */
  function Nested(depth: nat): Piece
  {
    if depth == 0 then Leaf(NEST_TAG) else Node(NEST_TAG, [Nested(depth - 1)])
  }

  const NEST_TAG := Tag("xisf", Unbound, [Attribute("version", "1.0")])

  lemma {:induction false} NestedMeasures(depth: nat)
    ensures Meaningful(Nested(depth)) && Elements(Nested(depth)) == depth + 1 && OpenDepth(Nested(depth)) == depth
    ensures Attributes(Nested(depth)) == depth + 1
    ensures Depth(Built(Nested(depth))) == depth + 1 && DistinctUids(Preorder(Built(Nested(depth))))
    ensures Built(Nested(depth)).name == "xisf" && Built(Nested(depth)).namespace.None?
    ensures Built(Nested(depth)).attributes == [("version", "1.0")]
    ensures forall e <- Preorder(Built(Nested(depth))) :: UidOf(e) == None
  {
    NestTag();
    if depth > 0 {
      NestedMeasures(depth - 1);
      var inner := Built(Nested(depth - 1));
      var e := TagElement(NEST_TAG).value;
      OneItem(Nested(depth - 1));
      FilledOnce(e, Nested(depth - 1));
      assert Built(Nested(depth)) == Adopt(e, inner);
      assert Adopt(e, inner).children == [inner];
      OneChild(inner);
    }
  }

  lemma {:induction false} OneItem(piece: Piece)
    ensures Elements(Node(NEST_TAG, [piece])) == Elements(piece) + 1
    ensures OpenDepth(Node(NEST_TAG, [piece])) == OpenDepth(piece) + 1
    ensures Attributes(Node(NEST_TAG, [piece])) == Attributes(piece) + 1
  {
    var items := [piece];
    assert items[1..] == [];
    assert ElementsIn(items) == Elements(items[0]) + ElementsIn([]);
    assert OpenDepthIn(items) == Max(OpenDepth(items[0]), OpenDepthIn([]));
    assert AttributesIn(items) == Attributes(items[0]) + AttributesIn([]);
  }

  lemma {:induction false} FilledOnce(e: Element, piece: Piece)
    requires IsElement(piece) && Meaningful(piece)
    ensures MeaningfulIn([piece]) && Filled(e, [piece]) == Adopt(e, Built(piece))
  {
    var items := [piece];
    assert items[1..] == [];
    assert Filled(e, items) == Filled(Adopt(e, Built(items[0])), []);
  }

  lemma {:induction false} OneChild(inner: Element)
    ensures DepthAll([inner]) == Depth(inner) && PreorderAll([inner]) == Preorder(inner)
  {
    var es := [inner];
    assert es[1..] == [];
    assert DepthAll(es) == Max(Depth(es[0]), DepthAll([]));
    assert PreorderAll(es) == Preorder(es[0]) + PreorderAll([]);
  }

  lemma {:induction false} NestTag()
    ensures TagElement(NEST_TAG) == Ok(Element("xisf", None, [("version", "1.0")], NO_DATA, []))
  {
    var raw := [Attribute("version", "1.0")];
    var pairs := [("version", "1.0")];
    assert raw[1..] == [] && pairs[1..] == [];
    assert Pairs(raw) == [(LocalName("version"), "1.0")] + Pairs([]) == pairs;
    assert ReadPairs(Own(NO_DATA, None), pairs) == ReadPairs(Own(NO_DATA, None), []);
  }

  /** The bound on nesting is tight: one level deeper than the open-tag limit is accepted, and no deeper. */
  lemma {:induction false} NestingIsExact(depth: nat)
    requires depth < MAX_ELEMENTS && depth < MAX_ATTRIBUTES
    ensures Parse(Events(Nested(depth))).Ok? <==> depth <= MAX_DEPTH
    ensures Parse(Events(Nested(depth))).Ok? ==> Depth(Parse(Events(Nested(depth))).value.root) == depth + 1
  {
    var piece := Nested(depth);
    NestedMeasures(depth);
    RunPiece(INITIAL, piece);
    NestedIsRoot(piece);
  }

  lemma {:induction false} NestedIsRoot(piece: Piece)
    requires IsElement(piece) && Meaningful(piece) && DistinctUids(Preorder(Built(piece)))
    requires Built(piece).name == "xisf" && Built(piece).namespace.None?
    requires Built(piece).attributes == [("version", "1.0")]
    ensures Fits(INITIAL, piece) ==> Conclude(After(INITIAL, piece)) == Ok(Header("1.0", Built(piece)))
  {
  }
}
