/** Printed documents can be told apart, so there is a lexer that gives every one of them back. */
module LexerExists {
  import opened Primitives
  import opened Text
  import opened XmlText
  import opened HeaderTree
  import opened HeaderDocument
  import opened HeaderText
  import opened HeaderLexing

  // -------------------------------------------------- bytes and characters

  /** How many bytes a character takes, by the first of them. */
  function LeadLength(first: byte): nat
  {
    if first < 0x80 then 1 else if first < 0xE0 then 2 else if first < 0xF0 then 3 else 4
  }

  /** The code of the character that some bytes encode. */
  function CodeOf(bytes: seq<byte>): int
    requires 1 <= |bytes| <= 4
  {
    if |bytes| == 1 then bytes[0]
    else if |bytes| == 2 then (bytes[0] as int - 0xC0) * 64 + (bytes[1] as int - 0x80)
    else if |bytes| == 3 then (bytes[0] as int - 0xE0) * 4096 + (bytes[1] as int - 0x80) * 64 + (bytes[2] as int - 0x80)
    else (bytes[0] as int - 0xF0) * 262_144 + (bytes[1] as int - 0x80) * 4096 + (bytes[2] as int - 0x80) * 64
         + (bytes[3] as int - 0x80)
  }

  /** Dividing by 64 again and again is dividing by its powers. */
  lemma {:induction false} Twice64(u: nat)
    ensures u / 4096 == u / 64 / 64
  {
    var a, r := u / 64, u % 64;
    var b, s := a / 64, a % 64;
    assert u == 4096 * b + (64 * s + r) && 64 * s + r < 4096;
  }

  lemma {:induction false} Thrice64(u: nat)
    ensures u / 262_144 == u / 4096 / 64
  {
    var a, r := u / 4096, u % 4096;
    var b, s := a / 64, a % 64;
    assert u == 262_144 * b + (4096 * s + r) && 4096 * s + r < 262_144;
  }

  lemma {:induction false} InBase64(u: nat)
    ensures u == u / 64 * 64 + u % 64
    ensures u == u / 4096 * 4096 + u / 64 % 64 * 64 + u % 64
    ensures u == u / 262_144 * 262_144 + u / 4096 % 64 * 4096 + u / 64 % 64 * 64 + u % 64
  {
    Twice64(u);
    Thrice64(u);
    var a, b := u / 64, u / 4096;
    assert a == 64 * (a / 64) + a % 64 && b == 64 * (b / 64) + b % 64;
  }

  lemma {:induction false} CharacterIsCoded(c: char)
    ensures LeadLength(Utf8Char(c)[0]) == |Utf8Char(c)| && CodeOf(Utf8Char(c)) == c as int
  {
    InBase64(c as int);
  }

  lemma {:induction false} FirstCharacterSame(a: char, x: seq<byte>, b: char, y: seq<byte>)
    requires Utf8Char(a) + x == Utf8Char(b) + y
    ensures a == b && x == y
  {
    hide Utf8Char;
    hide CodeOf;
    CharacterIsCoded(a);
    CharacterIsCoded(b);
    var p, q := Utf8Char(a), Utf8Char(b);
    assert p[0] == (p + x)[0] == q[0];
    assert p == (p + x)[..|p|] == q;
    assert x == (p + x)[|p|..] == y;
  }

  /** Different texts have different bytes. */
  lemma {:induction false} TextSame(a: string, b: string)
    requires Utf8(a) == Utf8(b)
    ensures a == b
  {
    if a != "" && b != "" {
      FirstCharacterSame(a[0], Utf8(a[1..]), b[0], Utf8(b[1..]));
      TextSame(a[1..], b[1..]);
      assert a == [a[0]] + a[1..] && b == [b[0]] + b[1..];
    }
  }

  // -------------------------------------------------- runs

  ghost predicate Ends(ok: char -> bool, rest: string) { rest == "" || !ok(rest[0]) }

  /** Where a run of characters of some kind ends is the same in the same text. */
  lemma {:induction false} RunSame(ok: char -> bool, a: string, x: string, b: string, y: string)
    requires (forall c <- a :: ok(c)) && (forall c <- b :: ok(c)) && Ends(ok, x) && Ends(ok, y)
    requires a + x == b + y
    ensures a == b && x == y
  {
    RunNotShorter(ok, a, x, b, y);
    RunNotShorter(ok, b, y, a, x);
    var text := a + x;
    assert a == text[..|a|] && b == text[..|b|];
    assert x == text[|a|..] && y == text[|b|..];
  }

  lemma {:induction false} RunNotShorter(ok: char -> bool, a: string, x: string, b: string, y: string)
    requires (forall c <- b :: ok(c)) && Ends(ok, x) && a + x == b + y
    ensures |a| >= |b|
  {
    var n := Min(|a|, |b| - 1);
    assert b != "" ==> (b + y)[n] == b[n] && b[n] in b;
  }

  /** Text that begins alike can be compared from where it differs. */
  lemma {:induction false} SameAfter(head: string, x: string, y: string)
    requires head + x == head + y
    ensures x == y
  {
    assert x == (head + x)[|head|..] == y;
  }

  predicate IsNameChar(c: char)
  {
    IsLetter(c) || '0' <= c <= '9' || c == '_' || c == '-' || c == '.' || c == ':'
  }

  lemma {:induction false} NameChars(name: string)
    requires IsXmlName(name)
    ensures name != "" && (forall c <- name :: IsNameChar(c)) && name[0] != '/'
  {
    match SplitOnce(name, ':') {
      case None =>
      case Some((prefix, rest)) =>
        SplitOnceExactly(name, ':', prefix, rest);
        assert name[0] == prefix[0];
    }
  }

  // -------------------------------------------------- attributes

  /** What may follow the attributes of a tag. */
  predicate ClosesTag(x: string) { x != "" && (x[0] == '>' || x[0] == '/') }

  lemma {:induction false} ValueSame(v: string, x: string, w: string, y: string)
    requires Escaped(v, true) + ("\"" + x) == Escaped(w, true) + ("\"" + y)
    ensures v == w && x == y
  {
    hide Escaped;
    EscapedIsQuotable(v);
    EscapedIsQuotable(w);
    RunSame(c => c != '"', Escaped(v, true), "\"" + x, Escaped(w, true), "\"" + y);
    SameAfter("\"", x, y);
    TextSurvives(v, true);
    TextSurvives(w, true);
  }

  lemma {:induction false} AttributeParts(k: string, v: string, x: string)
    ensures PrintAttribute(Attribute(k, v)) + x == " " + (k + ("=\"" + (Escaped(v, true) + ("\"" + x))))
  {
    hide Escaped;
    var e := Escaped(v, true);
    assert PrintAttribute(Attribute(k, v)) == " " + k + "=\"" + e + "\"";
  }

  lemma {:induction false} AttributeSame(k: string, v: string, x: string, l: string, w: string, y: string)
    requires IsXmlName(k) && IsXmlName(l)
    requires PrintAttribute(Attribute(k, v)) + x == PrintAttribute(Attribute(l, w)) + y
    ensures k == l && v == w && x == y
  {
    hide Escaped;
    hide IsXmlName;
    hide PrintAttribute;
    var e, f := Escaped(v, true), Escaped(w, true);
    NameChars(k);
    NameChars(l);
    AttributeParts(k, v, x);
    AttributeParts(l, w, y);
    SameAfter(" ", k + ("=\"" + (e + ("\"" + x))), l + ("=\"" + (f + ("\"" + y))));
    RunSame(IsNameChar, k, "=\"" + (e + ("\"" + x)), l, "=\"" + (f + ("\"" + y)));
    SameAfter("=\"", e + ("\"" + x), f + ("\"" + y));
    ValueSame(v, x, w, y);
  }

  predicate NamedAttributes(raw: seq<RawAttribute>)
  {
    forall i :: 0 <= i < |raw| ==> raw[i].Attribute? && IsXmlName(raw[i].key)
  }

  lemma {:induction false} FirstAttributePrints(raw: seq<RawAttribute>, x: string)
    requires raw != []
    ensures PrintAttributes(raw) + x == PrintAttribute(raw[0]) + (PrintAttributes(raw[1..]) + x)
    ensures raw[0].Attribute? ==> PrintAttributes(raw) + x != "" && (PrintAttributes(raw) + x)[0] == ' '
  {
    hide Escaped;
    var first, rest := PrintAttribute(raw[0]), PrintAttributes(raw[1..]);
    assert PrintAttributes(raw) == first + rest;
    Regroup(first, rest, x);
    if raw[0].Attribute? {
      BeginsWithSpace(raw[0], rest + x);
    }
  }

  lemma {:induction false} Regroup(a: string, b: string, c: string)
    ensures (a + b) + c == a + (b + c)
  {
  }

  lemma {:induction false} BeginsWithSpace(a: RawAttribute, x: string)
    requires a.Attribute?
    ensures PrintAttribute(a) + x != "" && (PrintAttribute(a) + x)[0] == ' '
  {
    hide Escaped;
  }

  lemma {:induction false} AttributesSame(a: seq<RawAttribute>, x: string, b: seq<RawAttribute>, y: string)
    requires NamedAttributes(a) && NamedAttributes(b) && ClosesTag(x) && ClosesTag(y)
    requires PrintAttributes(a) + x == PrintAttributes(b) + y
    ensures a == b && x == y
    decreases |a|
  {
    hide IsXmlName;
    hide PrintAttribute;
    assert PrintAttributes([]) + x == x && PrintAttributes([]) + y == y;
    hide PrintAttributes;
    if a != [] {
      FirstAttributePrints(a, x);
    }
    if b != [] {
      FirstAttributePrints(b, y);
    }
    if a != [] && b != [] {
      AttributeSame(a[0].key, a[0].value, PrintAttributes(a[1..]) + x, b[0].key, b[0].value,
                    PrintAttributes(b[1..]) + y);
      AttributesSame(a[1..], x, b[1..], y);
      assert a == [a[0]] + a[1..] && b == [b[0]] + b[1..];
    }
  }

  // -------------------------------------------------- tags

  function OpenTag(tag: Tag): string { "<" + (tag.name + PrintAttributes(tag.attributes)) }

  lemma {:induction false} AfterName(raw: seq<RawAttribute>, x: string)
    requires NamedAttributes(raw) && ClosesTag(x)
    ensures Ends(IsNameChar, PrintAttributes(raw) + x)
  {
    if raw != [] {
      FirstAttributePrints(raw, x);
    } else {
      assert PrintAttributes(raw) + x == x;
    }
  }

  lemma {:induction false} TagPrints(tag: Tag, x: string)
    ensures OpenTag(tag) + x == "<" + (tag.name + (PrintAttributes(tag.attributes) + x))
  {
    hide PrintAttributes;
    var raw := PrintAttributes(tag.attributes);
    Regroup("<", tag.name + raw, x);
    Regroup(tag.name, raw, x);
  }

  lemma {:induction false} TagSame(a: Tag, x: string, b: Tag, y: string, scope: Scope)
    requires PrintableTag(a, scope) && PrintableTag(b, scope) && ClosesTag(x) && ClosesTag(y)
    requires OpenTag(a) + x == OpenTag(b) + y
    ensures a == b && x == y
  {
    hide IsXmlName;
    hide IsNameChar;
    hide PrintAttributes;
    hide PlainDeclaration;
    hide ClosesTag;
    hide OpenTag;
    hide Ends;
    var p, q := PrintAttributes(a.attributes), PrintAttributes(b.attributes);
    NameChars(a.name);
    NameChars(b.name);
    AfterName(a.attributes, x);
    AfterName(b.attributes, y);
    TagPrints(a, x);
    TagPrints(b, y);
    SameAfter("<", a.name + (p + x), b.name + (q + y));
    RunSame(IsNameChar, a.name, p + x, b.name, q + y);
    AttributesSame(a.attributes, x, b.attributes, y);
  }

  // -------------------------------------------------- pieces

  /** A run of text is followed by a tag or a reference. */
  predicate Follows(piece: Piece, x: string)
  {
    piece.Words? ==> x != "" && (x[0] == '<' || x[0] == '&')
  }

  predicate IsClosing(x: string) { |x| >= 2 && x[0] == '<' && x[1] == '/' }

  function CloseTag(tag: Tag): string { "</" + tag.name + ">" }

  /** Where a printed element's tag ends, and what it goes on with. */
  function Inside(piece: Piece): string
    requires IsElement(piece)
  {
    if piece.Node? then ">" + (PrintAll(piece.items) + CloseTag(piece.tag)) else "/>"
  }

  lemma {:induction false} ElementPrints(piece: Piece, x: string)
    requires IsElement(piece)
    ensures Print(piece) + x == OpenTag(piece.tag) + (Inside(piece) + x)
  {
    hide PrintAttributes;
    hide PrintAll;
    var name, raw := piece.tag.name, PrintAttributes(piece.tag.attributes);
    if piece.Node? {
      assert Print(piece) == "<" + name + raw + ">" + PrintAll(piece.items) + CloseTag(piece.tag);
    } else {
      assert Print(piece) == "<" + name + raw + "/>";
    }
  }

  /** What a printed piece begins with. */
  lemma {:induction false} PieceBegins(piece: Piece, x: string, scope: Scope)
    requires Printable(piece, scope)
    ensures var text := Print(piece) + x;
      text != ""
      && (IsElement(piece) ==> |text| >= 2 && text[0] == '<' && text[1] != '/')
      && (piece.Ref? ==> text[0] == '&')
      && (piece.Words? ==> text[0] != '<' && text[0] != '&')
  {
    hide PrintAttributes;
    hide PrintAll;
    if IsElement(piece) {
      NameChars(piece.tag.name);
      ElementPrints(piece, x);
      assert OpenTag(piece.tag)[1] == piece.tag.name[0];
    } else if piece.Words? {
      WordsPrint(piece.text);
      assert piece.text[0] in piece.text;
    }
  }

  lemma {:induction false} WordsPrint(text: string)
    requires forall c <- text :: c != '&' && c != '<' && c != '>'
    ensures Print(Words(text)) == text
  {
    if text != "" {
      forall c | c in text[1..]
        ensures c != '&' && c != '<' && c != '>'
      {
        assert c in text;
      }
      WordsPrint(text[1..]);
      assert text[0] in text;
      assert text == [text[0]] + text[1..];
    }
  }

  lemma {:induction false} WordsSame(v: string, x: string, w: string, y: string, scope: Scope)
    requires Printable(Words(v), scope) && Printable(Words(w), scope) && Follows(Words(v), x) && Follows(Words(w), y)
    requires Print(Words(v)) + x == Print(Words(w)) + y
    ensures v == w && x == y
  {
    WordsPrint(v);
    WordsPrint(w);
    hide Print;
    RunSame(c => c != '<' && c != '&', v, x, w, y);
  }

  lemma {:induction false} RefsSame(v: string, x: string, w: string, y: string, scope: Scope)
    requires Printable(Ref(v), scope) && Printable(Ref(w), scope)
    requires Print(Ref(v)) + x == Print(Ref(w)) + y
    ensures v == w && x == y
  {
    assert Print(Ref(v)) + x == "&" + (v + (";" + x)) && Print(Ref(w)) + y == "&" + (w + (";" + y));
    SameAfter("&", v + (";" + x), w + (";" + y));
    RunSame(c => c != ';', v, ";" + x, w, ";" + y);
    SameAfter(";", x, y);
  }

  /** A printed piece can be told from what follows it, and from every other. */
  lemma {:induction false} PieceSame(a: Piece, x: string, b: Piece, y: string, scope: Scope)
    requires Printable(a, scope) && Printable(b, scope) && Follows(a, x) && Follows(b, y)
    requires Print(a) + x == Print(b) + y
    ensures a == b && x == y
    decreases a, 1
  {
    hide Print;
    PieceBegins(a, x, scope);
    PieceBegins(b, y, scope);
    if IsElement(a) {
      ElementSame(a, x, b, y, scope);
    } else if a.Words? {
      WordsSame(a.text, x, b.text, y, scope);
    } else {
      RefsSame(a.name, x, b.name, y, scope);
    }
  }

  lemma {:induction false} ElementSame(a: Piece, x: string, b: Piece, y: string, scope: Scope)
    requires IsElement(a) && IsElement(b) && Printable(a, scope) && Printable(b, scope)
    requires Print(a) + x == Print(b) + y
    ensures a == b && x == y
    decreases a, 0
  {
    hide Print;
    hide OpenTag;
    hide CloseTag;
    hide PrintAll;
    hide PrintableTag;
    hide Declared;
    hide Apart;
    ElementPrints(a, x);
    ElementPrints(b, y);
    TagSame(a.tag, Inside(a) + x, b.tag, Inside(b) + y, scope);
    InsideBegins(a, x);
    InsideBegins(b, y);
    if a.Node? {
      var tail, other := CloseTag(a.tag) + x, CloseTag(b.tag) + y;
      InsideParts(a, x);
      InsideParts(b, y);
      SameAfter(">", PrintAll(a.items) + tail, PrintAll(b.items) + other);
      Closings(a.tag, x);
      Closings(b.tag, y);
      ItemsSame(a.items, tail, b.items, other, Declared(scope, a.tag.attributes));
      SameAfter(CloseTag(a.tag), x, y);
    } else {
      SameAfter("/>", x, y);
    }
  }

  lemma {:induction false} InsideParts(piece: Piece, x: string)
    requires piece.Node?
    ensures Inside(piece) + x == ">" + (PrintAll(piece.items) + (CloseTag(piece.tag) + x))
  {
    hide PrintAll;
    hide CloseTag;
    Regroup(">", PrintAll(piece.items) + CloseTag(piece.tag), x);
    Regroup(PrintAll(piece.items), CloseTag(piece.tag), x);
  }

  lemma {:induction false} InsideBegins(piece: Piece, x: string)
    requires IsElement(piece)
    ensures ClosesTag(Inside(piece) + x) && ((Inside(piece) + x)[0] == '>' <==> piece.Node?)
  {
  }

  lemma {:induction false} Closings(tag: Tag, x: string)
    ensures IsClosing(CloseTag(tag) + x)
  {
  }

  lemma {:induction false} FirstPiecePrints(items: seq<Piece>, x: string)
    requires items != []
    ensures PrintAll(items) + x == Print(items[0]) + (PrintAll(items[1..]) + x)
  {
    hide Print;
    Regroup(Print(items[0]), PrintAll(items[1..]), x);
  }

  /** What comes after the first of a run of pieces is not text if that is. */
  lemma {:induction false} RestFollows(items: seq<Piece>, x: string, scope: Scope)
    requires items != [] && Apart(items) && AllPrintable(items, scope) && IsClosing(x)
    ensures Follows(items[0], PrintAll(items[1..]) + x)
  {
    hide Print;
    var rest := items[1..];
    if rest == [] {
      assert PrintAll(rest) + x == x;
    } else {
      FirstPiecePrints(rest, x);
      PieceBegins(rest[0], PrintAll(rest[1..]) + x, scope);
    }
  }

  /** A closing tag tells that the pieces have ended, and nothing else begins as it does. */
  lemma {:induction false} ItemsBegin(items: seq<Piece>, x: string, scope: Scope)
    requires AllPrintable(items, scope) && Apart(items) && IsClosing(x)
    ensures IsClosing(PrintAll(items) + x) <==> items == []
    ensures items == [] ==> PrintAll(items) + x == x
  {
    if items == [] {
      assert PrintAll(items) + x == x;
    } else {
      hide Print;
      FirstPiecePrints(items, x);
      hide PrintAll;
      PieceBegins(items[0], PrintAll(items[1..]) + x, scope);
    }
  }

  lemma {:induction false} ItemsSame(a: seq<Piece>, x: string, b: seq<Piece>, y: string, scope: Scope)
    requires AllPrintable(a, scope) && AllPrintable(b, scope) && Apart(a) && Apart(b) && IsClosing(x) && IsClosing(y)
    requires PrintAll(a) + x == PrintAll(b) + y
    ensures a == b && x == y
    decreases a, 2
  {
    hide Print;
    hide PrintAll;
    hide Printable;
    hide Apart;
    hide Follows;
    hide IsClosing;
    ItemsBegin(a, x, scope);
    ItemsBegin(b, y, scope);
    if a != [] {
      FirstPiecePrints(a, x);
      FirstPiecePrints(b, y);
      RestFollows(a, x, scope);
      RestFollows(b, y, scope);
      PieceSame(a[0], PrintAll(a[1..]) + x, b[0], PrintAll(b[1..]) + y, scope);
      RestApart(a);
      RestApart(b);
      ItemsSame(a[1..], x, b[1..], y, scope);
      SameParts(a, b);
    }
  }

  lemma {:induction false} SameParts(a: seq<Piece>, b: seq<Piece>)
    requires a != [] && b != [] && a[0] == b[0] && a[1..] == b[1..]
    ensures a == b
  {
    assert a == [a[0]] + a[1..] && b == [b[0]] + b[1..];
  }

  lemma {:induction false} RestApart(items: seq<Piece>)
    requires Apart(items) && items != []
    ensures Apart(items[1..])
  {
    var rest := items[1..];
    assert forall i :: 0 <= i < |rest| ==> rest[i] == items[i + 1];
  }

  // -------------------------------------------------- a lexer

  /** A document printed after the declaration. */
  ghost predicate Writes(piece: Piece, bytes: seq<byte>)
  {
    IsElement(piece) && Printable(piece, map[]) && bytes == Utf8(XML_DECLARATION + Print(piece))
  }

  /** No two documents that can be printed print alike. */
  lemma {:induction false} PrintingIsUnambiguous(a: Piece, b: Piece, bytes: seq<byte>)
    requires Writes(a, bytes) && Writes(b, bytes)
    ensures a == b
  {
    hide Print;
    hide Utf8;
    TextSame(XML_DECLARATION + Print(a), XML_DECLARATION + Print(b));
    SameAfter(XML_DECLARATION, Print(a), Print(b));
    assert Print(a) + "" == Print(a) && Print(b) + "" == Print(b);
    ElementSame(a, "", b, "", map[]);
  }

  ghost function EventsOf(bytes: seq<byte>): seq<Event>
  {
    if exists piece :: Writes(piece, bytes) then var piece :| Writes(piece, bytes); EventsIn([Note, AsRead(piece)])
    else []
  }

  /** So there is a lexer of the kind that the round trips ask for. */
  lemma {:induction false} ThereIsALexer() returns (lex: seq<byte> -> seq<Event>)
    ensures Lexes(lex)
  {
    lex := bytes => EventsOf(bytes);
    forall piece: Piece | IsElement(piece) && Printable(piece, map[])
      ensures lex(Utf8(XML_DECLARATION + Print(piece))) == EventsIn([Note, AsRead(piece)])
    {
      var bytes := Utf8(XML_DECLARATION + Print(piece));
      assert Writes(piece, bytes);
      var found :| Writes(found, bytes) && EventsOf(bytes) == EventsIn([Note, AsRead(found)]);
      PrintingIsUnambiguous(piece, found, bytes);
    }
  }
}
