/** Turning the events of an XML header into the tree of elements the reader works on. */
module HeaderTree {
  import opened Primitives
  import Text
  import opened Locations
  import opened BlockAttributes

  const XISF_NAMESPACE := "http://www.pixinsight.com/xisf"
  const MAX_DEPTH: nat := 256
  const MAX_ELEMENTS: nat := 1_000_000
  const MAX_ATTRIBUTES: nat := 2_000_000

  datatype ByteOrder = Little | Big

  /** Where an element's data is, how it was compressed, and the digest it should have. */
  datatype DataRef = DataRef(
    location: Option<Location>,
    compression: Option<Compression>,
    checksum: Option<Checksum>,
    byteOrder: ByteOrder,
    text: Option<string>,
    encoding: Option<TextEncoding>)

  const NO_DATA := DataRef(None, None, None, Little, None, None)

  datatype Element = Element(
    name: string, namespace: Option<string>, attributes: seq<(string, string)>, data: DataRef, children: seq<Element>)
  {
    predicate IsCore() { namespace.None? || namespace.value == XISF_NAMESPACE }

    predicate Is(n: string) { name == n && IsCore() }

    function Attr(key: string): Option<string> { Lookup(attributes, key) }
  }

  function Lookup(attributes: seq<(string, string)>, key: string): Option<string>
  {
    if attributes == [] then None
    else if attributes[0].0 == key then Some(attributes[0].1)
    else Lookup(attributes[1..], key)
  }

  predicate LacksKey(pairs: seq<(string, string)>, key: string)
  {
    forall i :: 0 <= i < |pairs| ==> pairs[i].0 != key
  }

  function FirstOf<T>(a: Option<T>, b: Option<T>): Option<T> { if a.Some? then a else b }

  lemma {:induction false} LookupApart(a: seq<(string, string)>, b: seq<(string, string)>, key: string)
    ensures Lookup(a + b, key) == FirstOf(Lookup(a, key), Lookup(b, key))
  {
    if a == [] {
      assert a + b == b;
    } else {
      assert (a + b)[1..] == a[1..] + b;
      LookupApart(a[1..], b, key);
    }
  }

  lemma {:induction false} LookupLacking(pairs: seq<(string, string)>, key: string)
    requires LacksKey(pairs, key)
    ensures Lookup(pairs, key) == None
  {
    if pairs != [] {
      LookupLacking(pairs[1..], key);
    }
  }

  lemma {:induction false} LookupTwo(a: (string, string), b: (string, string))
    requires a.0 != b.0
    ensures Lookup([a, b], a.0) == Some(a.1) && Lookup([a, b], b.0) == Some(b.1)
    ensures forall key :: key != a.0 && key != b.0 ==> Lookup([a, b], key) == None
  {
    var all := [a, b];
    assert all[1..] == [b] && all[1..][1..] == [];
    forall key | key != a.0 && key != b.0
      ensures Lookup(all, key) == None
    {
      LookupLacking(all, key);
    }
  }

  lemma {:induction false} LookupThree(a: (string, string), b: (string, string), c: (string, string))
    requires a.0 != b.0 && a.0 != c.0 && b.0 != c.0
    ensures Lookup([a, b, c], a.0) == Some(a.1) && Lookup([a, b, c], b.0) == Some(b.1)
    ensures Lookup([a, b, c], c.0) == Some(c.1)
    ensures forall key :: key != a.0 && key != b.0 && key != c.0 ==> Lookup([a, b, c], key) == None
  {
    var all := [a, b, c];
    assert all[1..] == [b, c] && all[1..][1..] == [c];
    assert Lookup([c], c.0) == Some(c.1) && Lookup([b, c], c.0) == Lookup([c], c.0);
    forall key | key != a.0 && key != b.0 && key != c.0
      ensures Lookup(all, key) == None
    {
      LookupLacking(all, key);
    }
  }

  // -------------------------------------------------- events

  datatype Namespace = Unbound | Bound(uri: string) | Undeclared

  /** An attribute as the lexer gives it, its value unescaped and normalized. */
  datatype RawAttribute = Attribute(key: string, value: string) | MalformedAttribute

  datatype Tag = Tag(name: string, namespace: Namespace, attributes: seq<RawAttribute>)

  /** A resolved event; `Chars` is character data or CDATA, `Skipped` a comment, declaration or instruction. */
  datatype Event =
    | Start(tag: Tag)
    | Empty(tag: Tag)
    | End
    | Chars(text: string)
    | Reference(name: string)
    | Skipped
    | LexicalFault

  /** A name without its prefix. */
  function LocalName(name: string): string
  {
    if ':' in name then name[Text.AfterLast(name, ':')..] else name
  }

  /** What a name is without its prefix: what follows the last colon. */
  lemma {:induction false} LocalNameExactly(name: string, rest: string)
    ensures LocalName(name) == rest <==>
      ':' !in rest && (name == rest || exists prefix :: name == prefix + [':'] + rest)
  {
    if ':' in name {
      var at := AfterColon(name);
      assert name == name[..at - 1] + [':'] + name[at..];
    }
    forall prefix | name == prefix + [':'] + rest && ':' !in rest
      ensures LocalName(name) == rest
    {
      Text.AfterLastUnique(prefix, ':', rest);
      assert name[|prefix|] == ':';
    }
  }

  lemma {:induction false} AfterColon(name: string) returns (at: nat)
    requires ':' in name
    ensures 0 < at <= |name| && at == Text.AfterLast(name, ':')
  {
    at := Text.AfterLast(name, ':');
    var i :| 0 <= i < |name| && name[i] == ':';
  }

  function NamespaceOf(ns: Namespace): Result<Option<string>>
  {
    match ns
    case Unbound => Ok(None)
    case Bound(uri) => Ok(Some(uri))
    case Undeclared => Err(BadHeader)
  }

  // -------------------------------------------------- one element's own attributes

  function ParseEncoding(value: string): Result<TextEncoding>
  {
    if value == "base64" then Ok(Base64) else if value == "hex" then Ok(Hex) else Err(BadAttribute)
  }

  function ParseByteOrder(value: string): Result<ByteOrder>
  {
    if value == "little" then Ok(Little) else if value == "big" then Ok(Big) else Err(BadAttribute)
  }

  /** What the attributes read so far say about the element's block. */
  datatype Own = Own(data: DataRef, subblocks: Option<seq<(u64, u64)>>)

  function ReadAttribute(own: Own, key: string, value: string): Result<Own>
  {
    match key
    case "location" => (var x :- ParseLocation(value); Ok(own.(data := own.data.(location := Some(x)))))
    case "compression" => (var x :- ParseCompression(value); Ok(own.(data := own.data.(compression := Some(x)))))
    case "subblocks" => (var x :- ParseSubblocks(value); Ok(own.(subblocks := Some(x))))
    case "checksum" => (var x :- ParseChecksum(value); Ok(own.(data := own.data.(checksum := Some(x)))))
    case "byteOrder" => (var x :- ParseByteOrder(value); Ok(own.(data := own.data.(byteOrder := x))))
    case "encoding" => (var x :- ParseEncoding(value); Ok(own.(data := own.data.(encoding := Some(x)))))
    case _ => Ok(own)
  }

  function ReadPairs(own: Own, pairs: seq<(string, string)>): Result<Own>
    decreases |pairs|
  {
    if pairs == [] then Ok(own)
    else
      var next :- ReadAttribute(own, pairs[0].0, pairs[0].1);
      ReadPairs(next, pairs[1..])
  }

  /** Marry the subblocks with the compression they divide, whichever attribute came first. */
  function MarrySubblocks(own: Own): Result<DataRef>
  {
    match own.subblocks
    case None => Ok(own.data)
    case Some(subblocks) =>
      match own.data.compression
      case None => Err(BadHeader)
      case Some(c) => Ok(own.data.(compression := Some(c.(subblocks := subblocks))))
  }

  /** What a list of attributes alone says about its element's block. */
  function OwnData(pairs: seq<(string, string)>): Result<DataRef>
  {
    var own :- ReadPairs(Own(NO_DATA, None), pairs);
    MarrySubblocks(own)
  }

  predicate WellFormed(raw: seq<RawAttribute>)
  {
    forall i :: 0 <= i < |raw| ==> raw[i].Attribute?
  }

  function Pairs(raw: seq<RawAttribute>): (pairs: seq<(string, string)>)
    requires WellFormed(raw)
    ensures |pairs| == |raw|
  {
    if raw == [] then [] else [(LocalName(raw[0].key), raw[0].value)] + Pairs(raw[1..])
  }

  /** What one tag alone makes: its element, or the first thing wrong with it. */
  function TagElement(tag: Tag): Result<Element>
  {
    var ns :- NamespaceOf(tag.namespace);
    if !WellFormed(tag.attributes) then Err(BadHeader)
    else
      var data :- OwnData(Pairs(tag.attributes));
      Ok(Element(LocalName(tag.name), ns, Pairs(tag.attributes), data, []))
  }

  /** The loop over attributes, which also spends the header's attribute budget. */
  function ReadRaw(own: Own, pairs: seq<(string, string)>, raw: seq<RawAttribute>, budget: nat)
      : Result<(Own, seq<(string, string)>)>
    decreases |raw|
  {
    if raw == [] then Ok((own, pairs))
    else if budget + 1 > MAX_ATTRIBUTES then Err(BadHeader)
    else if raw[0].MalformedAttribute? then Err(BadHeader)
    else
      var key := LocalName(raw[0].key);
      var next :- ReadAttribute(own, key, raw[0].value);
      ReadRaw(next, pairs + [(key, raw[0].value)], raw[1..], budget + 1)
  }

  function ElementFrom(tag: Tag, ns: Option<string>, budget: nat): Result<Element>
  {
    var (own, pairs) :- ReadRaw(Own(NO_DATA, None), [], tag.attributes, budget);
    var data :- MarrySubblocks(own);
    Ok(Element(LocalName(tag.name), ns, pairs, data, []))
  }

  /** The loop as the source runs it. */
  method ReadElement(tag: Tag, ns: Option<string>, budget: nat) returns (r: Result<Element>, spent: nat)
    ensures r == ElementFrom(tag, ns, budget)
    ensures r.Ok? ==> spent == budget + |tag.attributes|
  {
    hide ReadAttribute;
    hide LocalName;
    spent := budget;
    var own, pairs := Own(NO_DATA, None), [];
    var raw := tag.attributes;
    assert raw[0..] == raw;
    for i := 0 to |raw|
      invariant spent == budget + i
      invariant ReadRaw(own, pairs, raw[i..], spent) == ReadRaw(Own(NO_DATA, None), [], raw, budget)
    {
      assert raw[i..][1..] == raw[i + 1..];
      spent := spent + 1;
      if spent > MAX_ATTRIBUTES {
        return Err(BadHeader), spent;
      }
      if raw[i].MalformedAttribute? {
        return Err(BadHeader), spent;
      }
      var key := LocalName(raw[i].key);
      var next := ReadAttribute(own, key, raw[i].value);
      if next.Err? {
        return Err(next.kind), spent;
      }
      own := next.value;
      pairs := pairs + [(key, raw[i].value)];
    }
    var data := MarrySubblocks(own);
    if data.Err? {
      return Err(data.kind), spent;
    }
    r := Ok(Element(LocalName(tag.name), ns, pairs, data.value, []));
  }

  lemma {:induction false} ReadRawIs(own: Own, pairs: seq<(string, string)>, raw: seq<RawAttribute>, budget: nat)
    requires budget <= MAX_ATTRIBUTES
    ensures ReadRaw(own, pairs, raw, budget).Ok? <==>
      budget + |raw| <= MAX_ATTRIBUTES && WellFormed(raw) && ReadPairs(own, Pairs(raw)).Ok?
    ensures ReadRaw(own, pairs, raw, budget).Ok? ==>
      ReadRaw(own, pairs, raw, budget).value == (ReadPairs(own, Pairs(raw)).value, pairs + Pairs(raw))
    decreases |raw|
  {
    hide ReadAttribute;
    hide LocalName;
    if raw == [] {
      assert pairs + [] == pairs;
    } else if budget < MAX_ATTRIBUTES && raw[0].Attribute? {
      var key := LocalName(raw[0].key);
      var next := ReadAttribute(own, key, raw[0].value);
      assert WellFormed(raw) <==> WellFormed(raw[1..]) by {
        assert forall i :: 0 < i < |raw| ==> raw[i] == raw[1..][i - 1];
      }
      if next.Ok? {
        ReadRawIs(next.value, pairs + [(key, raw[0].value)], raw[1..], budget + 1);
      }
      if WellFormed(raw) {
        assert Pairs(raw)[1..] == Pairs(raw[1..]);
        assert pairs + Pairs(raw) == pairs + [(key, raw[0].value)] + Pairs(raw[1..]);
      }
    }
  }

  /** A tag is accepted exactly when it is well formed by itself and the budget covers its attributes. */
  lemma {:induction false} ElementFromIs(tag: Tag, budget: nat)
    requires budget <= MAX_ATTRIBUTES
    ensures var made := (var ns :- NamespaceOf(tag.namespace); ElementFrom(tag, ns, budget));
      (made.Ok? <==> TagElement(tag).Ok? && budget + |tag.attributes| <= MAX_ATTRIBUTES)
      && (made.Ok? ==> made == TagElement(tag))
  {
    ReadRawIs(Own(NO_DATA, None), [], tag.attributes, budget);
    if WellFormed(tag.attributes) {
      assert [] + Pairs(tag.attributes) == Pairs(tag.attributes);
    }
  }
}
