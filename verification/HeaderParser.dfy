/** Parsing a whole header, walking its tree, and resolving what refers to what. */
module HeaderParser {
  import opened Primitives
  import Text
  import XmlText
  import opened HeaderTree
  import opened HeaderMachine

  datatype Header = Header(version: string, root: Element)

  // -------------------------------------------------- the walk over the tree

  function Reversed<T>(s: seq<T>): (r: seq<T>)
  {
    if s == [] then [] else Reversed(s[1..]) + [s[0]]
  }

  lemma {:induction false} ReversedSnoc<T>(s: seq<T>, x: T)
    ensures Reversed(s + [x]) == [x] + Reversed(s)
  {
    if s == [] {
      assert Reversed([x]) == Reversed([]) + [x];
      assert [] + [x] == [x];
    } else {
      assert (s + [x])[1..] == s[1..] + [x];
      ReversedSnoc(s[1..], x);
    }
  }

  lemma {:induction false} ReversedConcat<T>(a: seq<T>, b: seq<T>)
    ensures Reversed(a + b) == Reversed(b) + Reversed(a)
  {
    if a == [] {
      assert a + b == b;
    } else {
      assert (a + b)[1..] == a[1..] + b;
      ReversedConcat(a[1..], b);
    }
  }

  lemma {:induction false} ReversedTwice<T>(s: seq<T>)
    ensures Reversed(Reversed(s)) == s
  {
    if s != [] {
      ReversedTwice(s[1..]);
      ReversedSnoc(Reversed(s[1..]), s[0]);
    }
  }

  /** One turn of the worklist: the last pending element comes out, its children go in its place. */
  lemma {:induction false} WorklistTurn(pending: seq<Element>)
    requires pending != []
    ensures var top := |pending| - 1; var e := pending[top];
      PreorderAll(Reversed(pending)) == [e] + PreorderAll(Reversed(pending[..top] + Reversed(e.children)))
      && SizeAll(Reversed(pending[..top] + Reversed(e.children))) < SizeAll(Reversed(pending))
  {
    var top := |pending| - 1;
    var e, rest := pending[top], pending[..top];
    assert pending == rest + [e];
    ReversedSnoc(rest, e);
    ReversedConcat(rest, Reversed(e.children));
    ReversedTwice(e.children);
    var after := e.children + Reversed(rest);
    PreorderConcat(e.children, Reversed(rest));
    SizeConcat(e.children, Reversed(rest));
    assert ([e] + Reversed(rest))[1..] == Reversed(rest);
    assert Preorder(e) + PreorderAll(Reversed(rest)) == [e] + (PreorderAll(e.children) + PreorderAll(Reversed(rest)));
  }

  lemma {:induction false} SizeConcat(a: seq<Element>, b: seq<Element>)
    ensures SizeAll(a + b) == SizeAll(a) + SizeAll(b)
  {
    if a == [] {
      assert a + b == b;
    } else {
      assert (a + b)[1..] == a[1..] + b;
      SizeConcat(a[1..], b);
    }
  }

  /** What is pending at the start of the walk, and at its end. */
  lemma {:induction false} WorklistEnds(e: Element)
    ensures PreorderAll(Reversed([e])) == Preorder(e) && PreorderAll(Reversed([])) == []
  {
    var one := [e];
    assert one[1..] == [];
    assert Reversed(one) == Reversed([]) + [e] == one;
    assert PreorderAll(one) == Preorder(e) + PreorderAll([]);
  }

  /** The worklist walk: it ends, and visits the subtree in document order. */
  method Descendants(e: Element) returns (out: seq<Element>)
    ensures out == Preorder(e)
  {
    hide Reversed;
    hide Preorder;
    hide PreorderAll;
    hide SizeAll;
    out := [];
    var pending := [e];
    WorklistEnds(e);
    while pending != []
      invariant out + PreorderAll(Reversed(pending)) == Preorder(e)
      decreases SizeAll(Reversed(pending))
    {
      WorklistTurn(pending);
      var element := pending[|pending| - 1];
      pending := pending[..|pending| - 1] + Reversed(element.children);
      assert (out + [element]) + PreorderAll(Reversed(pending)) == out + ([element] + PreorderAll(Reversed(pending)));
      out := out + [element];
    }
  }

  // -------------------------------------------------- unique identifiers

  /** The unique element identifier of a core element; extension elements have none that counts. */
  function UidOf(e: Element): Option<string> { if e.IsCore() then e.Attr("uid") else None }

  predicate DistinctUids(es: seq<Element>)
  {
    forall i, j :: 0 <= i < j < |es| && UidOf(es[i]).Some? ==> UidOf(es[i]) != UidOf(es[j])
  }

  method CheckUids(es: seq<Element>) returns (ok: bool)
    ensures ok == DistinctUids(es)
  {
    var seen: set<string> := {};
    for i := 0 to |es|
      invariant DistinctUids(es[..i])
      invariant seen == set k | 0 <= k < i && UidOf(es[k]).Some? :: UidOf(es[k]).value
    {
      var uid := es[i].Attr("uid");
      if uid.Some? && es[i].IsCore() {
        if uid.value in seen {
          return false;
        }
        seen := seen + {uid.value};
      }
    }
    assert es[..|es|] == es;
    return true;
  }

  // -------------------------------------------------- the parser

  function CheckRoot(root: Element): Result<Header>
  {
    if !root.Is("xisf") then Err(BadHeader)
    else if !DistinctUids(Preorder(root)) then Err(BadHeader)
    else
      var version := root.Attr("version").GetOr("");
      if version != "1.0" then Err(Unsupported) else Ok(Header(version, root))
  }

  function Conclude(s: State): Result<Header>
  {
    if s.stack != [] || s.root.None? then Err(BadHeader) else CheckRoot(s.root.value)
  }

  function Parse(events: seq<Event>): Result<Header>
  {
    var s :- Run(INITIAL, events);
    Conclude(s)
  }

  class Parser {
    var stack: seq<Element>
    var root: Option<Element>
    var elements: nat
    var attributes: nat

    ghost function View(): State
      reads this
    {
      State(stack, root, elements, attributes)
    }

    constructor ()
      ensures View() == INITIAL
    {
      stack, root, elements, attributes := [], None, 0, 0;
    }

    /** A finished element becomes the last child of the open one around it, or the root. */
    method FinishElement(element: Element)
      modifies this
      ensures View() == Finish(old(View()), element)
    {
      if stack != [] {
        var top := |stack| - 1;
        var parent := stack[top];
        if element.Is("Data") {
          var data := parent.data;
          if data.text.None? || Text.Trim(data.text.value) == "" {
            data := data.(text := element.data.text);
          }
          if data.location.None? {
            data := data.(location := element.data.location);
          }
          if element.data.encoding.Some? && data.location.Some? && data.location.value.Embedded? {
            data := data.(location := Some(data.location.value.(encoding := element.data.encoding.value)));
          }
          if data.compression.None? {
            data := data.(compression := element.data.compression);
          }
          if data.checksum.None? {
            data := data.(checksum := element.data.checksum);
          }
          parent := parent.(data := data);
        }
        stack := stack[top := parent.(children := parent.children + [element])];
      } else if root.None? {
        root := Some(element);
      }
    }

    /** Character data goes to the innermost open element, and outside the root nowhere. */
    method PushCharacters(text: string)
      modifies this
      ensures View() == PushText(old(View()), text)
    {
      if text == "" {
        assert stack != [] ==> stack[|stack| - 1 := stack[|stack| - 1]] == stack;
        return;
      }
      if stack != [] {
        var top := |stack| - 1;
        var data := stack[top].data;
        stack := stack[top := stack[top].(data := data.(text := Some(data.text.GetOr("") + text)))];
      }
    }

    /** One event; a fault ends the parse. */
    method Handle(event: Event) returns (fault: Option<ErrorKind>)
      modifies this
      ensures match fault
              case None => Step(old(View()), event) == Ok(View())
              case Some(kind) => Step(old(View()), event) == Err(kind)
    {
      hide XmlText.ResolveEntity;
      hide ElementFrom;
      hide Finish;
      match event {
        case LexicalFault => return Some(BadHeader);
        case Start(tag) =>
          elements := elements + 1;
          if elements > MAX_ELEMENTS {
            return Some(BadHeader);
          }
          if |stack| >= MAX_DEPTH {
            return Some(BadHeader);
          }
          var ns := NamespaceOf(tag.namespace);
          if ns.Err? {
            return Some(ns.kind);
          }
          var element, spent := ReadElement(tag, ns.value, attributes);
          if element.Err? {
            return Some(element.kind);
          }
          attributes := spent;
          stack := stack + [element.value];
        case Empty(tag) =>
          elements := elements + 1;
          if elements > MAX_ELEMENTS {
            return Some(BadHeader);
          }
          var ns := NamespaceOf(tag.namespace);
          if ns.Err? {
            return Some(ns.kind);
          }
          var element, spent := ReadElement(tag, ns.value, attributes);
          if element.Err? {
            return Some(element.kind);
          }
          attributes := spent;
          FinishElement(element.value);
        case End =>
          if stack == [] {
            return Some(BadHeader);
          }
          var element := stack[|stack| - 1];
          stack := stack[..|stack| - 1];
          FinishElement(element);
        case Chars(text) => PushCharacters(text);
        case Reference(name) =>
          var resolved := XmlText.ResolveEntity(name);
          if resolved.None? {
            return Some(BadHeader);
          }
          PushCharacters(resolved.value);
        case Skipped =>
      }
      return None;
    }
  }

  method ParseHeader(events: seq<Event>) returns (r: Result<Header>)
    ensures r == Parse(events)
  {
    var parser := new Parser();
    assert events[0..] == events;
    for i := 0 to |events|
      invariant fresh(parser)
      invariant Run(parser.View(), events[i..]) == Run(INITIAL, events)
    {
      assert events[i..][1..] == events[i + 1..];
      var fault := parser.Handle(events[i]);
      if fault.Some? {
        return Err(fault.value);
      }
    }
    if parser.stack != [] {
      return Err(BadHeader);
    }
    if parser.root.None? {
      return Err(BadHeader);
    }
    var root := parser.root.value;
    if !root.Is("xisf") {
      return Err(BadHeader);
    }
    var all := Descendants(root);
    var distinct := CheckUids(all);
    if !distinct {
      return Err(BadHeader);
    }
    var version := root.Attr("version").GetOr("");
    if version != "1.0" {
      return Err(Unsupported);
    }
    return Ok(Header(version, root));
  }

  /**
    Every header that parses, from whatever events, stays within the limits: elements, nesting (an
    empty tag may add one level), and everywhere in it the promotion rule holds.
   */
  lemma {:induction false} AcceptedHeadersAreBounded(events: seq<Event>)
    requires Parse(events).Ok?
    ensures var root := Parse(events).value.root;
      |Preorder(root)| <= MAX_ELEMENTS && Depth(root) <= MAX_DEPTH + 1
      && root.Is("xisf") && DistinctUids(Preorder(root))
    ensures var root := Parse(events).value.root; forall i :: 0 <= i < |Preorder(root)| ==> Promoted(Preorder(root)[i])
  {
    RunSound(INITIAL, events);
    var root := Parse(events).value.root;
    PreorderLength(root);
    PromotedEverywhere(root);
  }

  lemma {:induction false} PromotedEverywhere(e: Element)
    requires AllPromoted(e)
    ensures forall x <- Preorder(e) :: Promoted(x)
    decreases e, 1
  {
    PromotedEverywhereIn(e.children);
  }

  lemma {:induction false} PromotedEverywhereIn(es: seq<Element>)
    requires AllPromotedIn(es)
    ensures forall x <- PreorderAll(es) :: Promoted(x)
    decreases es, 0
  {
    if es != [] {
      PromotedEverywhere(es[0]);
      PromotedEverywhereIn(es[1..]);
    }
  }

  // -------------------------------------------------- references

  function FindUid(es: seq<Element>, uid: string): (found: Option<Element>)
  {
    if es == [] then None
    else if UidOf(es[0]) == Some(uid) then Some(es[0])
    else FindUid(es[1..], uid)
  }

  function ByUid(h: Header, uid: string): Option<Element> { FindUid(Preorder(h.root), uid) }

  function Named(es: seq<Element>, name: string): (found: seq<Element>)
  {
    if es == [] then []
    else if es[0].Is(name) then [es[0]] + Named(es[1..], name)
    else Named(es[1..], name)
  }

  /** What one reference adds: its target, if that exists and has the wanted name. */
  function Target(h: Header, reference: Element, name: string): seq<Element>
  {
    var uid := reference.Attr("ref");
    if uid.None? then []
    else
      var target := ByUid(h, uid.value);
      if target.Some? && target.value.Is(name) then [target.value] else []
  }

  function Targets(h: Header, references: seq<Element>, name: string): seq<Element>
  {
    if references == [] then [] else Target(h, references[0], name) + Targets(h, references[1..], name)
  }

  /** The elements of a kind that belong to another: its own children first, then what it refers to. */
  function AssociatedWith(h: Header, owner: Element, name: string): seq<Element>
  {
    Named(owner.children, name) + Targets(h, Named(owner.children, "Reference"), name)
  }

  method Associated(h: Header, owner: Element, name: string) returns (out: seq<Element>)
    ensures out == AssociatedWith(h, owner, name)
  {
    hide Named;
    hide Lookup;
    hide ByUid;
    out := Named(owner.children, name);
    var references := Named(owner.children, "Reference");
    assert references[0..] == references;
    for i := 0 to |references|
      invariant out + Targets(h, references[i..], name)
             == Named(owner.children, name) + Targets(h, references, name)
    {
      assert references[i..][1..] == references[i + 1..];
      ghost var before := out;
      var uid := references[i].Attr("ref");
      if uid.Some? {
        var target := ByUid(h, uid.value);
        if target.Some? && target.value.Is(name) {
          out := out + [target.value];
        }
      }
      assert out == before + Target(h, references[i], name);
    }
  }

  lemma {:induction false} FindUidIs(es: seq<Element>, uid: string)
    ensures FindUid(es, uid).None? <==> forall i :: 0 <= i < |es| ==> UidOf(es[i]) != Some(uid)
    ensures FindUid(es, uid).Some? ==>
      exists i :: 0 <= i < |es| && es[i] == FindUid(es, uid).value && UidOf(es[i]) == Some(uid)
  {
    if es != [] && UidOf(es[0]) != Some(uid) {
      FindUidIs(es[1..], uid);
      assert forall i :: 0 < i < |es| ==> es[i] == es[1..][i - 1];
      if FindUid(es, uid).Some? {
        var i :| 0 <= i < |es[1..]| && es[1..][i] == FindUid(es, uid).value && UidOf(es[1..][i]) == Some(uid);
        assert es[i + 1] == FindUid(es, uid).value;
      }
    }
  }

  /** After a successful parse an identifier names one place in the header, and `ByUid` is what stands there. */
  lemma {:induction false} UidNamesOnePlace(events: seq<Event>, uid: string)
    requires Parse(events).Ok?
    ensures var h := Parse(events).value; var all := Preorder(h.root);
      (ByUid(h, uid).None? <==> forall i :: 0 <= i < |all| ==> UidOf(all[i]) != Some(uid))
      && (forall i :: 0 <= i < |all| && UidOf(all[i]) == Some(uid) ==>
            ByUid(h, uid) == Some(all[i])
            && forall j :: 0 <= j < |all| && UidOf(all[j]) == Some(uid) ==> j == i)
  {
    var h := Parse(events).value;
    FindUidIs(Preorder(h.root), uid);
    assert ByUid(h, uid) == FindUid(Preorder(h.root), uid);
  }

  /** After a successful parse a reference adds exactly the element it names, when that has the wanted name. */
  lemma {:induction false} ReferenceResolves(events: seq<Event>, reference: Element, name: string)
    requires Parse(events).Ok? && reference.Attr("ref").Some?
    ensures var h := Parse(events).value; var all := Preorder(h.root); var uid := reference.Attr("ref").value;
      (forall i :: 0 <= i < |all| && UidOf(all[i]) == Some(uid) && all[i].Is(name) ==>
       Target(h, reference, name) == [all[i]])
      && ((forall i :: 0 <= i < |all| && UidOf(all[i]) == Some(uid) ==> !all[i].Is(name)) ==>
          Target(h, reference, name) == [])
  {
    UidNamesOnePlace(events, reference.Attr("ref").value);
    FindUidIs(Preorder(Parse(events).value.root), reference.Attr("ref").value);
  }

  // -------------------------------------------------- elements of other namespaces

  /** An element of a namespace other than the format's. */
  predicate IsForeign(e: Element) { e.namespace.Some? && e.namespace.value != "http://www.pixinsight.com/xisf" }

  /**
    Such an element is taken for none of the format's, whatever its name: it is a child and nothing more, lends
    its parent no data, is found under no name, and has no identifier that counts.
   */
  lemma {:induction false} ForeignIsInert(parent: Element, e: Element, name: string)
    requires IsForeign(e)
    ensures Adopt(parent, e) == parent.(children := parent.children + [e])
    ensures Named(parent.children + [e], name) == Named(parent.children, name) && UidOf(e) == None
  {
    NamedLast(parent.children, e, name);
  }

  lemma {:induction false} NamedLast(es: seq<Element>, e: Element, name: string)
    ensures Named(es + [e], name) == Named(es, name) + if e.Is(name) then [e] else []
  {
    if es == [] {
      assert es + [e] == [e] && [e][1..] == [];
    } else {
      assert (es + [e])[1..] == es[1..] + [e];
      NamedLast(es[1..], e, name);
    }
  }
}
