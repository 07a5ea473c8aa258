/** Elements of the format itself, printed by the writer, as a lexer and a reader take them. */
module CorePieces {
  import opened Primitives
  import opened Text
  import opened XmlText
  import opened Locations
  import opened HeaderTree
  import opened HeaderMachine
  import opened HeaderDocument
  import opened HeaderTrees
  import opened HeaderLexing
  import opened WrittenElements

  function FoldedPairs(pairs: seq<(string, string)>): (read: seq<(string, string)>)
    ensures |read| == |pairs|
  {
    seq(|pairs|, i requires 0 <= i < |pairs| => (pairs[i].0, Folded(pairs[i].1)))
  }

  lemma {:induction false} RawAt(pairs: seq<(string, string)>, i: nat)
    requires i < |pairs|
    ensures RawAttributes(pairs)[i] == Attribute(pairs[i].0, pairs[i].1)
  {
    if i > 0 {
      RawAt(pairs[1..], i - 1);
    }
  }

  lemma {:induction false} CoreTagAsRead(name: string, pairs: seq<(string, string)>)
    ensures FoldedTag(CoreTag(name, pairs)) == CoreTag(name, FoldedPairs(pairs))
  {
    hide RawAttributes;
    var raw, read := RawAttributes(pairs), FoldedPairs(pairs);
    forall i | 0 <= i < |pairs|
      ensures FoldedAttributes(raw)[i] == RawAttributes(read)[i]
    {
      RawAt(pairs, i);
      RawAt(read, i);
    }
    assert FoldedAttributes(raw) == RawAttributes(read);
  }

  lemma {:induction false} OneFolded(key: string, value: string)
    ensures FoldedPairs([(key, value)]) == [(key, Folded(value))]
  {
  }

  lemma {:induction false} PairsFoldApart(a: seq<(string, string)>, b: seq<(string, string)>)
    ensures FoldedPairs(a + b) == FoldedPairs(a) + FoldedPairs(b)
  {
  }

  lemma {:induction false} AllAsReadApart(a: seq<Piece>, b: seq<Piece>)
    ensures AllAsRead(a + b) == AllAsRead(a) + AllAsRead(b)
  {
  }

  lemma {:induction false} LeafAsRead(name: string, pairs: seq<(string, string)>)
    ensures AllAsRead([Leaf(CoreTag(name, pairs))]) == [Leaf(CoreTag(name, FoldedPairs(pairs)))]
  {
    CoreTagAsRead(name, pairs);
  }

  /** Distinct keys without prefixes, none of them a namespace declaration. */
  predicate LexablePairs(pairs: seq<(string, string)>)
  {
    (forall i :: 0 <= i < |pairs| ==> IsSimpleName(pairs[i].0) && pairs[i].0 != "xmlns")
    && forall i, j :: 0 <= i < j < |pairs| ==> pairs[i].0 != pairs[j].0
  }

  lemma {:induction false} SimpleNameIsXml(name: string)
    requires IsSimpleName(name)
    ensures IsXmlName(name) && PrefixOf(name) == "" && (name != "xmlns" ==> DeclaredPrefix(name) == None)
  {
    assert ':' !in name;
    Unsplit(name);
  }

  lemma {:induction false} NothingDeclared(pairs: seq<(string, string)>, scope: Scope)
    requires forall i :: 0 <= i < |pairs| ==> IsSimpleName(pairs[i].0) && pairs[i].0 != "xmlns"
    ensures Declared(scope, RawAttributes(pairs)) == scope
  {
    hide DeclaredPrefix;
    hide IsSimpleName;
    if pairs != [] {
      SimpleNameIsXml(pairs[0].0);
      NothingDeclared(pairs[1..], scope);
      assert RawAttributes(pairs)[1..] == RawAttributes(pairs[1..]);
    }
  }

  lemma {:induction false} LexableAttributes(pairs: seq<(string, string)>)
    requires LexablePairs(pairs)
    ensures PrintableAttributes(RawAttributes(pairs))
  {
    hide RawAttributes;
    hide IsXmlName;
    hide DeclaredPrefix;
    hide IsSimpleName;
    var raw := RawAttributes(pairs);
    forall i | 0 <= i < |raw|
      ensures raw[i] == Attribute(pairs[i].0, pairs[i].1) && IsXmlName(raw[i].key) && PlainDeclaration(raw[i])
    {
      RawAt(pairs, i);
      SimpleNameIsXml(pairs[i].0);
    }
  }

  /** A scope in which names without a prefix belong to the format. */
  predicate CoreByDefault(scope: Scope)
  {
    "" in scope && scope[""] == XISF_NAMESPACE
  }

  lemma {:induction false} LexableTag(name: string, pairs: seq<(string, string)>, scope: Scope)
    requires IsSimpleName(name) && LexablePairs(pairs) && CoreByDefault(scope)
    ensures PrintableTag(CoreTag(name, pairs), scope) && Declared(scope, CoreTag(name, pairs).attributes) == scope
  {
    hide IsSimpleName;
    hide IsXmlName;
    hide PrefixOf;
    hide PrintableAttributes;
    SimpleNameIsXml(name);
    LexableAttributes(pairs);
    NothingDeclared(pairs, scope);
  }

  lemma {:induction false} OneMorePair(pairs: seq<(string, string)>, key: string, value: string)
    requires LexablePairs(pairs) && LacksKey(pairs, key) && IsSimpleName(key) && key != "xmlns"
    ensures LexablePairs(pairs + [(key, value)])
    ensures forall other :: LacksKey(pairs, other) && other != key ==> LacksKey(pairs + [(key, value)], other)
  {
    hide IsSimpleName;
  }

  lemma {:induction false} NoPairsLexable()
    ensures LexablePairs([])
  {
  }

  /** Elements, each of which can be lexed where it stands. */
  ghost predicate LexableElements(pieces: seq<Piece>, scope: Scope)
  {
    AllPrintable(pieces, scope) && forall i :: 0 <= i < |pieces| ==> IsElement(pieces[i])
  }

  lemma {:induction false} LexableApart(a: seq<Piece>, b: seq<Piece>, scope: Scope)
    requires LexableElements(a, scope) && LexableElements(b, scope)
    ensures LexableElements(a + b, scope)
  {
  }

  lemma {:induction false} LexableLeaf(name: string, pairs: seq<(string, string)>, scope: Scope)
    requires IsSimpleName(name) && LexablePairs(pairs) && CoreByDefault(scope)
    ensures LexableElements([Leaf(CoreTag(name, pairs))], scope)
  {
    LexableTag(name, pairs, scope);
  }

  lemma {:induction false} LexableNode(name: string, pairs: seq<(string, string)>, items: seq<Piece>, scope: Scope)
    requires IsSimpleName(name) && LexablePairs(pairs) && CoreByDefault(scope) && LexableElements(items, scope)
    ensures LexableElements([Node(CoreTag(name, pairs), items)], scope)
  {
    hide PrintableTag;
    hide Declared;
    LexableTag(name, pairs, scope);
  }

  // -------------------------------------------------- pieces made of such elements only

  function KeysAndValues(raw: seq<RawAttribute>): (pairs: seq<(string, string)>)
    ensures |pairs| == |raw|
  {
    seq(|raw|, i requires 0 <= i < |raw| => if raw[i].Attribute? then (raw[i].key, raw[i].value) else ("", ""))
  }

  lemma {:induction false} KeysAndValuesBack(pairs: seq<(string, string)>)
    ensures KeysAndValues(RawAttributes(pairs)) == pairs
  {
    hide RawAttributes;
    forall i | 0 <= i < |pairs|
      ensures KeysAndValues(RawAttributes(pairs))[i] == pairs[i]
    {
      RawAt(pairs, i);
    }
  }

  /** Attributes that can be lexed and say nothing about a data block. */
  predicate Unremarkable(pairs: seq<(string, string)>)
  {
    LexablePairs(pairs) && PlainPairs(pairs)
  }

  predicate IsCoreTag(tag: Tag)
  {
    var pairs := KeysAndValues(tag.attributes);
    IsSimpleName(tag.name) && Unremarkable(pairs) && tag == CoreTag(tag.name, pairs)
  }

  /** Unremarkable elements of the format all the way down, with text between them that can be lexed. */
  predicate CorePiece(piece: Piece)
    decreases piece
  {
    match piece
    case Node(tag, items) => IsCoreTag(tag) && Apart(items) && forall i :: 0 <= i < |items| ==> CorePiece(items[i])
    case Leaf(tag) => IsCoreTag(tag)
    case Words(text) => text != "" && forall c <- text :: c != '&' && c != '<' && c != '>' && c != '\r'
    case Ref(name) =>
      name != "" && (forall c <- name :: IsLetter(c) || '0' <= c <= '9' || c == '#') && ResolveEntity(name).Some?
    case Note => false
  }

  ghost predicate AllCore(pieces: seq<Piece>)
  {
    forall i :: 0 <= i < |pieces| ==> CorePiece(pieces[i])
  }

  lemma {:induction false} CoreTagIsCore(name: string, pairs: seq<(string, string)>)
    requires IsSimpleName(name) && Unremarkable(pairs)
    ensures IsCoreTag(CoreTag(name, pairs))
  {
    hide IsSimpleName;
    hide Unremarkable;
    KeysAndValuesBack(pairs);
  }

  lemma {:induction false} CorePrintable(piece: Piece, scope: Scope)
    requires CorePiece(piece) && CoreByDefault(scope)
    ensures Printable(piece, scope)
    decreases piece
  {
    hide PrintableTag;
    hide IsSimpleName;
    if IsElement(piece) {
      LexableTag(piece.tag.name, KeysAndValues(piece.tag.attributes), scope);
    }
    if piece.Node? {
      forall i | 0 <= i < |piece.items|
        ensures Printable(piece.items[i], scope)
      {
        CorePrintable(piece.items[i], scope);
      }
    }
  }

  // -------------------------------------------------- what they are read as

  predicate AllUnidentified(es: seq<Element>)
  {
    forall x <- PreorderAll(es) :: x.Attr("uid") == None
  }

  lemma {:induction false} OneMoreUnidentified(es: seq<Element>, e: Element)
    requires AllUnidentified(es) && Unidentified(e)
    ensures AllUnidentified(es + [e])
  {
    hide Preorder;
    PreorderConcat(es, [e]);
    OnePreorder(e);
  }

  lemma {:induction false} OnePreorder(e: Element)
    ensures PreorderAll([e]) == Preorder(e)
  {
    var one := [e];
    assert one[1..] == [];
    assert PreorderAll(one) == Preorder(e) + PreorderAll([]);
  }

  lemma {:induction false} RootAndChildren(e: Element)
    requires e.Attr("uid") == None && AllUnidentified(e.children)
    ensures Unidentified(e)
  {
    assert Preorder(e) == [e] + PreorderAll(e.children);
  }

  lemma {:induction false} CoreTagElement(tag: Tag)
    requires IsCoreTag(tag)
    ensures TagElement(tag) == Ok(CoreElement(tag.name, KeysAndValues(tag.attributes), NO_DATA))
    ensures CoreElement(tag.name, KeysAndValues(tag.attributes), NO_DATA).Attr("uid") == None
  {
    var pairs := KeysAndValues(tag.attributes);
    forall i | 0 <= i < |pairs|
      ensures ':' !in pairs[i].0
    {
      assert PlainKey(pairs[i].0);
    }
    PlainPairsSayNothing(Own(NO_DATA, None), pairs);
    CoreTagReads(tag.name, pairs, NO_DATA);
    NoPlainUid(pairs);
  }

  /** An element made of core pieces is read under its own name, and carries no identifier anywhere. */
  lemma {:induction false} CoreReads(piece: Piece)
    requires CorePiece(piece)
    ensures Meaningful(piece)
    ensures IsElement(piece) ==> Built(piece).name == piece.tag.name && Unidentified(Built(piece))
    decreases piece, 1
  {
    hide Unidentified;
    hide IsCoreTag;
    hide Filled;
    hide Lookup;
    if IsElement(piece) {
      CoreTagElement(piece.tag);
      var e := CoreElement(piece.tag.name, KeysAndValues(piece.tag.attributes), NO_DATA);
      assert AllUnidentified([]);
      if piece.Node? {
        CoreFills(e, piece.items);
        RootAndChildren(Filled(e, piece.items));
      } else {
        RootAndChildren(e);
      }
    }
  }

  lemma {:induction false} CoreFills(e: Element, items: seq<Piece>)
    requires AllCore(items) && AllUnidentified(e.children)
    ensures MeaningfulIn(items)
    ensures Filled(e, items).name == e.name && Filled(e, items).attributes == e.attributes
    ensures AllUnidentified(Filled(e, items).children)
    decreases items, 0
  {
    hide AllUnidentified;
    hide Unidentified;
    hide ResolveEntity;
    if items != [] {
      CoreReads(items[0]);
      match items[0] {
        case Words(text) => CoreFills(AppendText(e, text), items[1..]);
        case Ref(name) => CoreFills(AppendText(e, ResolveEntity(name).value), items[1..]);
        case Note =>
        case _ =>
          OneMoreUnidentified(e.children, Built(items[0]));
          CoreFills(Adopt(e, Built(items[0])), items[1..]);
      }
    }
  }

  /** An element made of core pieces keeps out of the way of the images, if its name does. */
  lemma {:induction false} CoreSurrounds(piece: Piece)
    requires CorePiece(piece) && IsElement(piece)
    requires piece.tag.name != "Data" && piece.tag.name != "Image" && piece.tag.name != "ICCProfile"
    requires piece.tag.name != "Thumbnail"
    ensures Surrounding(piece)
  {
    hide Built;
    hide Meaningful;
    hide CorePiece;
    CoreReads(piece);
  }
}
