/** The header as text: printing pieces of a document, and how many bytes that takes. */
module HeaderText {
  import opened Primitives
  import opened Text
  import opened XmlText
  import Locations
  import opened HeaderTree
  import opened HeaderDocument

  // -------------------------------------------------- UTF-8

  function Utf8Char(c: char): (bytes: seq<byte>)
    ensures 1 <= |bytes| <= 4
  {
    var u := c as int;
    if u < 0x80 then [u]
    else if u < 0x800 then [0xC0 + u / 64, 0x80 + u % 64]
    else if u < 0x1_0000 then [0xE0 + u / 4096, 0x80 + u / 64 % 64, 0x80 + u % 64]
    else [0xF0 + u / 262_144, 0x80 + u / 4096 % 64, 0x80 + u / 64 % 64, 0x80 + u % 64]
  }

  function Utf8(text: string): seq<byte>
  {
    if text == [] then [] else Utf8Char(text[0]) + Utf8(text[1..])
  }

  lemma {:induction false} Utf8Concat(a: string, b: string)
    ensures Utf8(a + b) == Utf8(a) + Utf8(b)
  {
    if a == [] {
      assert a + b == b;
    } else {
      assert (a + b)[1..] == a[1..] + b;
      Utf8Concat(a[1..], b);
    }
  }

  function ByteLen(text: string): nat { |Utf8(text)| }

  lemma {:induction false} AsciiLength(text: string)
    requires forall i :: 0 <= i < |text| ==> text[i] < 128 as char
    ensures ByteLen(text) == |text|
  {
    if text != [] {
      AsciiLength(text[1..]);
    }
  }

  // -------------------------------------------------- printing

  const XML_DECLARATION := "<?xml version=\"1.0\" encoding=\"UTF-8\"?>"

  function PrintAttribute(a: RawAttribute): string
  {
    if a.Attribute? then " " + a.key + "=\"" + Escaped(a.value, true) + "\"" else ""
  }

  function PrintAttributes(raw: seq<RawAttribute>): string
  {
    if raw == [] then "" else PrintAttribute(raw[0]) + PrintAttributes(raw[1..])
  }

  function Print(piece: Piece): string
    decreases piece, 1
  {
    match piece
    case Node(tag, items) =>
      "<" + tag.name + PrintAttributes(tag.attributes) + ">" + PrintAll(items) + ("</" + tag.name + ">")
    case Leaf(tag) => "<" + tag.name + PrintAttributes(tag.attributes) + "/>"
    case Words(text) => Escaped(text, false)
    case Ref(name) => "&" + name + ";"
    case Note => ""
  }

  function PrintAll(items: seq<Piece>): string
    decreases items, 0
  {
    if items == [] then "" else Print(items[0]) + PrintAll(items[1..])
  }

  lemma {:induction false} PrintAttributesConcat(a: seq<RawAttribute>, b: seq<RawAttribute>)
    ensures PrintAttributes(a + b) == PrintAttributes(a) + PrintAttributes(b)
  {
    if a == [] {
      assert a + b == b;
    } else {
      assert (a + b)[1..] == a[1..] + b;
      PrintAttributesConcat(a[1..], b);
    }
  }

  lemma {:induction false} PrintAllConcat(a: seq<Piece>, b: seq<Piece>)
    ensures PrintAll(a + b) == PrintAll(a) + PrintAll(b)
  {
    if a == [] {
      assert a + b == b;
    } else {
      assert (a + b)[1..] == a[1..] + b;
      PrintAllConcat(a[1..], b);
    }
  }

  /** How many digits a position takes. */
  function Width(n: nat): nat { |Decimal(n)| }

  /** A locator attribute takes as many bytes as its fixed text and its digits. */
  lemma {:induction false} LocatorLength(position: nat, size: nat)
    ensures ByteLen(PrintAttributes([Attribute("location", Locations.AttachmentText(position, size))]))
         == 24 + Width(position) + Width(size)
  {
    var text := Locations.AttachmentText(position, size);
    assert |text| == 12 + Width(position) + Width(size);
    AttachmentIsSimple(position, size);
    EscapingKeeps(text);
    AttributePrints("location", text);
  }

  /** Characters that print as themselves and take one byte. */
  predicate Simple(text: string)
  {
    forall i :: 0 <= i < |text| ==> text[i] < 128 as char && EscapedChar(text[i], true) == [text[i]]
  }

  lemma {:induction false} SimpleConcat(a: string, b: string)
    requires Simple(a) && Simple(b)
    ensures Simple(a + b)
  {
  }

  lemma {:induction false} AttachmentIsSimple(position: nat, size: nat)
    ensures Simple(Locations.AttachmentText(position, size))
  {
    DigitsAreDigits(position, 10);
    DigitsAreDigits(size, 10);
    DigitsAscii(Decimal(position));
    DigitsAscii(Decimal(size));
    SimpleConcat("attachment:", Decimal(position));
    SimpleConcat("attachment:" + Decimal(position), ":");
    SimpleConcat("attachment:" + Decimal(position) + ":", Decimal(size));
  }

  lemma {:induction false} AttributePrints(key: string, value: string)
    requires Simple(value) && Escaped(value, true) == value
    requires forall i :: 0 <= i < |key| ==> key[i] < 128 as char
    ensures ByteLen(PrintAttributes([Attribute(key, value)])) == |key| + |value| + 4
  {
    hide Utf8;
    PrintOneAttribute(key, value);
    Utf8Concat(" " + key + "=\"" + value, "\"");
    Utf8Concat(" " + key + "=\"", value);
    Utf8Concat(" " + key, "=\"");
    Utf8Concat(" ", key);
    AsciiLength(" ");
    AsciiLength("=\"");
    AsciiLength("\"");
    AsciiLength(key);
    AsciiLength(value);
  }

  lemma {:induction false} PrintOneAttribute(key: string, value: string)
    requires Escaped(value, true) == value
    ensures PrintAttributes([Attribute(key, value)]) == " " + key + "=\"" + value + "\""
  {
    hide Escaped;
    var raw := [Attribute(key, value)];
    assert raw[1..] == [];
    assert PrintAttributes(raw) == PrintAttribute(raw[0]) + PrintAttributes([]);
  }

  lemma {:induction false} DigitsAscii(s: string)
    requires AllDigits(s, 10)
    ensures forall i :: 0 <= i < |s| ==> '0' <= s[i] <= '9'
  {
  }

  lemma {:induction false} EscapingKeeps(text: string)
    requires forall i :: 0 <= i < |text| ==> EscapedChar(text[i], true) == [text[i]]
    ensures Escaped(text, true) == text
  {
    if text != [] {
      EscapingKeeps(text[1..]);
      assert text == [text[0]] + text[1..];
    }
  }
}
