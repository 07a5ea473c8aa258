/** What the XML lexer is trusted with: it gives back the events of a document that was printed. */
module HeaderLexing {
  import opened Primitives
  import opened Text
  import XmlText
  import opened HeaderTree
  import opened HeaderDocument
  import HeaderText

  // -------------------------------------------------- names and namespaces

  /** A name without a prefix. */
  predicate IsSimpleName(name: string)
  {
    name != "" && (IsLetter(name[0]) || name[0] == '_')
    && forall c <- name :: IsLetter(c) || '0' <= c <= '9' || c == '_' || c == '-' || c == '.'
  }

  /** A name with at most one prefix, and that not reserved. */
  predicate IsXmlName(name: string)
  {
    match SplitOnce(name, ':')
    case None => IsSimpleName(name)
    case Some((prefix, rest)) => IsSimpleName(prefix) && IsSimpleName(rest)
  }

  function PrefixOf(name: string): string
  {
    match SplitOnce(name, ':')
    case None => ""
    case Some((prefix, _)) => prefix
  }

  /** Which namespace each prefix is bound to; the empty prefix is the default. */
  type Scope = map<string, string>

  /** The prefix an attribute declares, if it is a namespace declaration. */
  function DeclaredPrefix(key: string): Option<string>
  {
    if key == "xmlns" then Some("")
    else if PrefixOf(key) == "xmlns" then Some(key[6..])
    else None
  }

  function Declared(scope: Scope, raw: seq<RawAttribute>): Scope
  {
    if raw == [] then scope
    else
      var rest := Declared(scope, raw[1..]);
      if raw[0].MalformedAttribute? then rest
      else
        match DeclaredPrefix(raw[0].key)
        case None => rest
        case Some(prefix) => rest[prefix := raw[0].value]
  }

  function ResolvedIn(scope: Scope, name: string): Namespace
  {
    var prefix := PrefixOf(name);
    if prefix in scope then Bound(scope[prefix]) else if prefix == "" then Unbound else Undeclared
  }

  // -------------------------------------------------- what prints so that it can be read

  /** Distinct keys, and declarations of plain namespaces for prefixes that are not reserved. */
  predicate PrintableAttributes(raw: seq<RawAttribute>)
  {
    (forall i :: 0 <= i < |raw| ==> raw[i].Attribute? && IsXmlName(raw[i].key) && PlainDeclaration(raw[i]))
    && forall i, j :: 0 <= i < j < |raw| && raw[i].Attribute? && raw[j].Attribute? ==> raw[i].key != raw[j].key
  }

  predicate PlainDeclaration(a: RawAttribute)
    requires a.Attribute?
  {
    match DeclaredPrefix(a.key)
    case None => true
    case Some(prefix) => prefix != "xml" && prefix != "xmlns" && a.value != "" && UnchangedText(a.value)
  }

  /** Text that neither escaping nor attribute normalization changes. */
  predicate UnchangedText(text: string)
  {
    forall c <- text :: c != '&' && c != '<' && c != '>' && c != '"' && c != '\'' && c != '\t' && c != '\r' && c != '\n'
  }

  predicate PrintableTag(tag: Tag, scope: Scope)
  {
    IsXmlName(tag.name) && PrefixOf(tag.name) != "xml" && PrefixOf(tag.name) != "xmlns"
    && PrintableAttributes(tag.attributes) && tag.namespace == ResolvedIn(Declared(scope, tag.attributes), tag.name)
  }

  /** Runs of characters do not touch, since two of them would be read as one. */
  predicate Apart(items: seq<Piece>)
  {
    forall i :: 0 < i < |items| ==> !(items[i - 1].Words? && items[i].Words?)
  }

  /**
    A piece whose printed form determines its events, given the namespaces around it. A character that
    has to be escaped in text is a reference, which is what a lexer makes of it.
   */
  predicate Printable(piece: Piece, scope: Scope)
    decreases piece
  {
    match piece
    case Node(tag, items) =>
      PrintableTag(tag, scope) && Apart(items)
      && forall i :: 0 <= i < |items| ==> Printable(items[i], Declared(scope, tag.attributes))
    case Leaf(tag) => PrintableTag(tag, scope)
    case Words(text) => text != "" && forall c <- text :: c != '&' && c != '<' && c != '>' && c != '\r'
    case Ref(name) => name != "" && forall c <- name :: IsLetter(c) || '0' <= c <= '9' || c == '#'
    case Note => false
  }

  ghost predicate AllPrintable(pieces: seq<Piece>, scope: Scope)
  {
    forall i :: 0 <= i < |pieces| ==> Printable(pieces[i], scope)
  }

  // -------------------------------------------------- what is read

  /** Attributes after normalization. */
  function FoldedAttributes(raw: seq<RawAttribute>): (read: seq<RawAttribute>)
    ensures |read| == |raw|
  {
    seq(|raw|, i requires 0 <= i < |raw| => FoldedAttribute(raw[i]))
  }

  function FoldedAttribute(a: RawAttribute): RawAttribute
  {
    if a.Attribute? then Attribute(a.key, XmlText.Folded(a.value)) else a
  }

  function FoldedTag(tag: Tag): Tag { tag.(attributes := FoldedAttributes(tag.attributes)) }

  /** A piece as it comes back: the same, but for what normalization does to attributes. */
  function AsRead(piece: Piece): Piece
    decreases piece, 1
  {
    match piece
    case Node(tag, items) => Node(FoldedTag(tag), AllAsRead(items))
    case Leaf(tag) => Leaf(FoldedTag(tag))
    case _ => piece
  }

  function AllAsRead(pieces: seq<Piece>): (read: seq<Piece>)
    ensures |read| == |pieces|
    decreases pieces, 0
  {
    seq(|pieces|, i requires 0 <= i < |pieces| => AsRead(pieces[i]))
  }

  /**
    A lexer gives every document printed after the declaration back as its events, with each attribute's
    value what `XmlText.AttributeSurvivesExactly` makes of it.
   */
  ghost predicate Lexes(lex: seq<byte> -> seq<Event>)
  {
    forall piece: Piece :: IsElement(piece) && Printable(piece, map[]) ==>
      lex(HeaderText.Utf8(HeaderText.XML_DECLARATION + HeaderText.Print(piece))) == EventsIn([Note, AsRead(piece)])
  }

  // -------------------------------------------------- reading keeps a document's size

  lemma {:induction false} SizeAsRead(piece: Piece)
    ensures Elements(AsRead(piece)) == Elements(piece) && Attributes(AsRead(piece)) == Attributes(piece)
    ensures OpenDepth(AsRead(piece)) == OpenDepth(piece)
    decreases piece, 1
  {
    if piece.Node? {
      SizesAsRead(piece.items);
    }
  }

  lemma {:induction false} SizesAsRead(pieces: seq<Piece>)
    ensures ElementsIn(AllAsRead(pieces)) == ElementsIn(pieces)
    ensures AttributesIn(AllAsRead(pieces)) == AttributesIn(pieces)
    ensures OpenDepthIn(AllAsRead(pieces)) == OpenDepthIn(pieces)
    decreases pieces, 0
  {
    if pieces != [] {
      SizeAsRead(pieces[0]);
      SizesAsRead(pieces[1..]);
      assert AllAsRead(pieces)[1..] == AllAsRead(pieces[1..]);
    }
  }
}
