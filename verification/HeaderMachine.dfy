/** The stack machine that builds the header's tree, what every run of it keeps, and what it builds. */
module HeaderMachine {
  import opened Primitives
  import Text
  import XmlText
  import opened Locations
  import BlockAttributes
  import opened HeaderTree

  /** The elements under construction, the finished root, and the two counters. */
  datatype State = State(stack: seq<Element>, root: Option<Element>, elements: nat, attributes: nat)

  const INITIAL := State([], None, 0, 0)

  function AppendText(e: Element, text: string): Element
  {
    if text == "" then e else e.(data := e.data.(text := Some(e.data.text.GetOr("") + text)))
  }

  function PushText(s: State, text: string): State
  {
    if s.stack == [] then s
    else
      var top := |s.stack| - 1;
      s.(stack := s.stack[top := AppendText(s.stack[top], text)])
  }

  predicate IsBlank(text: Option<string>) { text.None? || Text.Trim(text.value) == "" }

  /** The embedded slot of a location takes the encoding of a `<Data>` child. */
  function WithEncoding(location: Option<Location>, encoding: Option<TextEncoding>): Option<Location>
  {
    if encoding.Some? && location.Some? && location.value.Embedded? then Some(Embedded(encoding.value)) else location
  }

  /** What a `<Data>` child's block reference adds to its parent's. */
  function Promote(parent: DataRef, child: DataRef): DataRef
  {
    DataRef(
      WithEncoding(if parent.location.None? then child.location else parent.location, child.encoding),
      if parent.compression.None? then child.compression else parent.compression,
      if parent.checksum.None? then child.checksum else parent.checksum,
      parent.byteOrder,
      if IsBlank(parent.text) then child.text else parent.text,
      parent.encoding)
  }

  /** Attach a finished child. */
  function Adopt(parent: Element, child: Element): Element
  {
    parent.(data := if child.Is("Data") then Promote(parent.data, child.data) else parent.data,
            children := parent.children + [child])
  }

  /** Attach a finished element to the element around it; only the first at top level is the root. */
  function Finish(s: State, e: Element): State
  {
    if s.stack != [] then
      var top := |s.stack| - 1;
      s.(stack := s.stack[top := Adopt(s.stack[top], e)])
    else if s.root.None? then s.(root := Some(e))
    else s
  }

  function Open(s: State, tag: Tag): Result<(State, Element)>
  {
    var ns :- NamespaceOf(tag.namespace);
    var e :- ElementFrom(tag, ns, s.attributes);
    Ok((s.(attributes := s.attributes + |tag.attributes|), e))
  }

  function Count(s: State): Result<State>
  {
    if s.elements + 1 > MAX_ELEMENTS then Err(BadHeader) else Ok(s.(elements := s.elements + 1))
  }

  function Step(s: State, event: Event): Result<State>
  {
    match event
    case Start(tag) =>
      var s :- Count(s);
      if |s.stack| >= MAX_DEPTH then Err(BadHeader)
      else
        var (s, e) :- Open(s, tag);
        Ok(s.(stack := s.stack + [e]))
    case Empty(tag) =>
      var s :- Count(s);
      var (s, e) :- Open(s, tag);
      Ok(Finish(s, e))
    case End =>
      if s.stack == [] then Err(BadHeader)
      else Ok(Finish(s.(stack := s.stack[..|s.stack| - 1]), s.stack[|s.stack| - 1]))
    case Chars(text) => Ok(PushText(s, text))
    case Reference(name) =>
      (match XmlText.ResolveEntity(name)
       case None => Err(BadHeader)
       case Some(text) => Ok(PushText(s, text)))
    case Skipped => Ok(s)
    case LexicalFault => Err(BadHeader)
  }

  function Run(s: State, events: seq<Event>): Result<State>
    decreases |events|
  {
    if events == [] then Ok(s)
    else
      var next :- Step(s, events[0]);
      Run(next, events[1..])
  }

  // -------------------------------------------------- the tree that results

  function Size(e: Element): nat
    decreases e, 1
  {
    1 + SizeAll(e.children)
  }

  function SizeAll(es: seq<Element>): nat
    decreases es, 0
  {
    if es == [] then 0 else Size(es[0]) + SizeAll(es[1..])
  }

  function Depth(e: Element): nat
    decreases e, 1
  {
    1 + DepthAll(e.children)
  }

  function DepthAll(es: seq<Element>): nat
    decreases es, 0
  {
    if es == [] then 0 else Max(Depth(es[0]), DepthAll(es[1..]))
  }

  /** An element, then everything below it, in document order. */
  function Preorder(e: Element): (all: seq<Element>)
    decreases e, 1
  {
    [e] + PreorderAll(e.children)
  }

  function PreorderAll(es: seq<Element>): (all: seq<Element>)
    decreases es, 0
  {
    if es == [] then [] else Preorder(es[0]) + PreorderAll(es[1..])
  }

  lemma {:induction false} SnocMeasures(es: seq<Element>, e: Element)
    ensures SizeAll(es + [e]) == SizeAll(es) + Size(e)
    ensures DepthAll(es + [e]) == Max(DepthAll(es), Depth(e))
  {
    if es == [] {
      assert [] + [e] == [e];
      assert SizeAll([e]) == Size(e) + SizeAll([]) && DepthAll([e]) == Max(Depth(e), DepthAll([]));
    } else {
      assert (es + [e])[1..] == es[1..] + [e];
      SnocMeasures(es[1..], e);
    }
  }

  lemma {:induction false} PreorderConcat(a: seq<Element>, b: seq<Element>)
    ensures PreorderAll(a + b) == PreorderAll(a) + PreorderAll(b)
  {
    if a == [] {
      assert a + b == b;
    } else {
      assert (a + b)[1..] == a[1..] + b;
      PreorderConcat(a[1..], b);
    }
  }

  lemma {:induction false} PreorderLength(e: Element)
    ensures |Preorder(e)| == Size(e)
    decreases e, 1
  {
    PreorderLengthAll(e.children);
  }

  lemma {:induction false} PreorderLengthAll(es: seq<Element>)
    ensures |PreorderAll(es)| == SizeAll(es)
    decreases es, 0
  {
    if es != [] {
      PreorderLength(es[0]);
      PreorderLengthAll(es[1..]);
    }
  }

  // -------------------------------------------------- what every run keeps

  /** The compression of the first `<Data>` child that has one. */
  function FirstCompression(es: seq<Element>): Option<BlockAttributes.Compression>
  {
    if es == [] then None
    else if es[0].Is("Data") && es[0].data.compression.Some? then es[0].data.compression
    else FirstCompression(es[1..])
  }

  function FirstChecksum(es: seq<Element>): Option<BlockAttributes.Checksum>
  {
    if es == [] then None
    else if es[0].Is("Data") && es[0].data.checksum.Some? then es[0].data.checksum
    else FirstChecksum(es[1..])
  }

  function FirstLocation(es: seq<Element>): Option<Location>
  {
    if es == [] then None
    else if es[0].Is("Data") && es[0].data.location.Some? then es[0].data.location
    else FirstLocation(es[1..])
  }

  /** Equal but for the encoding an embedded location carries. */
  predicate SameLocation(a: Option<Location>, b: Option<Location>)
  {
    a == b || (a.Some? && b.Some? && a.value.Embedded? && b.value.Embedded?)
  }

  /** An element's block reference is its own, completed by its first `<Data>` children. */
  predicate Promoted(e: Element)
  {
    OwnData(e.attributes).Ok?
    && var own := OwnData(e.attributes).value;
       e.data.compression == (if own.compression.Some? then own.compression else FirstCompression(e.children))
       && e.data.checksum == (if own.checksum.Some? then own.checksum else FirstChecksum(e.children))
       && SameLocation(e.data.location, if own.location.Some? then own.location else FirstLocation(e.children))
       && e.data.byteOrder == own.byteOrder && e.data.encoding == own.encoding
  }

  predicate AllPromoted(e: Element)
    decreases e, 1
  {
    Promoted(e) && AllPromotedIn(e.children)
  }

  predicate AllPromotedIn(es: seq<Element>)
    decreases es, 0
  {
    es == [] || (AllPromoted(es[0]) && AllPromotedIn(es[1..]))
  }

  lemma {:induction false} SnocPromotion(es: seq<Element>, e: Element)
    ensures AllPromotedIn(es + [e]) <==> AllPromotedIn(es) && AllPromoted(e)
    ensures FirstCompression(es + [e]) ==
      if FirstCompression(es).Some? then FirstCompression(es) else if e.Is("Data") then e.data.compression else None
    ensures FirstChecksum(es + [e]) ==
      if FirstChecksum(es).Some? then FirstChecksum(es) else if e.Is("Data") then e.data.checksum else None
    ensures FirstLocation(es + [e]) ==
      if FirstLocation(es).Some? then FirstLocation(es) else if e.Is("Data") then e.data.location else None
  {
    if es == [] {
      assert [] + [e] == [e] && [e][1..] == [];
    } else {
      assert (es + [e])[1..] == es[1..] + [e];
      SnocPromotion(es[1..], e);
    }
  }

  /** A finished or unfinished element that satisfies the promotion rule everywhere below it. */
  lemma {:induction false} AdoptPromotes(parent: Element, child: Element)
    requires AllPromoted(parent) && AllPromoted(child)
    ensures AllPromoted(Adopt(parent, child))
  {
    SnocPromotion(parent.children, child);
  }

  lemma {:induction false} OpenedIsPromoted(tag: Tag, budget: nat)
    requires budget <= MAX_ATTRIBUTES && NamespaceOf(tag.namespace).Ok?
    requires ElementFrom(tag, NamespaceOf(tag.namespace).value, budget).Ok?
    ensures var e := ElementFrom(tag, NamespaceOf(tag.namespace).value, budget).value;
      AllPromoted(e) && e.children == [] && budget + |tag.attributes| <= MAX_ATTRIBUTES
  {
    ElementFromIs(tag, budget);
  }

  function StackSize(stack: seq<Element>): nat { SizeAll(stack) }

  /** The invariant of the machine. */
  predicate Sound(s: State)
  {
    |s.stack| <= MAX_DEPTH
    && StackSize(s.stack) + (if s.root.Some? then Size(s.root.value) else 0) <= s.elements <= MAX_ELEMENTS
    && s.attributes <= MAX_ATTRIBUTES
    && (forall i :: 0 <= i < |s.stack| ==> DepthAll(s.stack[i].children) <= MAX_DEPTH - i && AllPromoted(s.stack[i]))
    && (s.root.Some? ==> Depth(s.root.value) <= MAX_DEPTH + 1 && AllPromoted(s.root.value))
  }

  lemma {:induction false} SplitLast(stack: seq<Element>)
    requires stack != []
    ensures var top := |stack| - 1; SizeAll(stack) == SizeAll(stack[..top]) + Size(stack[top])
  {
    var top := |stack| - 1;
    SnocMeasures(stack[..top], stack[top]);
    assert stack == stack[..top] + [stack[top]];
  }

  lemma {:induction false} ReplaceLast(stack: seq<Element>, e: Element)
    requires stack != []
    ensures SizeAll(stack[|stack| - 1 := e]) == SizeAll(stack) - Size(stack[|stack| - 1]) + Size(e)
  {
    var top := |stack| - 1;
    SplitLast(stack);
    SplitLast(stack[top := e]);
    assert stack[top := e][..top] == stack[..top];
  }

  lemma {:induction false} AdoptMeasures(parent: Element, child: Element)
    ensures Size(Adopt(parent, child)) == Size(parent) + Size(child)
    ensures DepthAll(Adopt(parent, child).children) == Max(DepthAll(parent.children), Depth(child))
  {
    SnocMeasures(parent.children, child);
  }

  lemma {:induction false} FinishSound(s: State, e: Element)
    requires Sound(s) && AllPromoted(e) && Depth(e) <= MAX_DEPTH + 1 - |s.stack|
    requires SizeAll(s.stack) + (if s.root.Some? then Size(s.root.value) else 0) + Size(e) <= s.elements
    ensures Sound(Finish(s, e))
  {
    if s.stack != [] {
      var top := |s.stack| - 1;
      AdoptPromotes(s.stack[top], e);
      AdoptMeasures(s.stack[top], e);
      ReplaceLast(s.stack, Adopt(s.stack[top], e));
    }
  }

  lemma {:induction false} TextSound(s: State, text: string)
    requires Sound(s)
    ensures Sound(PushText(s, text))
  {
    if s.stack != [] {
      var top := |s.stack| - 1;
      ReplaceLast(s.stack, AppendText(s.stack[top], text));
    }
  }

  lemma {:induction false} PushSound(s: State, e: Element)
    requires Sound(s) && |s.stack| < MAX_DEPTH && AllPromoted(e) && e.children == []
    requires SizeAll(s.stack) + (if s.root.Some? then Size(s.root.value) else 0) + 1 <= s.elements
    ensures Sound(s.(stack := s.stack + [e]))
  {
    SnocMeasures(s.stack, e);
  }

  lemma {:induction false} PopSound(s: State)
    requires Sound(s) && s.stack != []
    ensures var top := |s.stack| - 1; Sound(Finish(s.(stack := s.stack[..top]), s.stack[top]))
  {
    SplitLast(s.stack);
    FinishSound(s.(stack := s.stack[..|s.stack| - 1]), s.stack[|s.stack| - 1]);
  }

  lemma {:induction false} StartSound(s: State, tag: Tag)
    requires Sound(s) && Step(s, Start(tag)).Ok?
    ensures Sound(Step(s, Start(tag)).value)
  {
    OpenedIsPromoted(tag, s.attributes);
    PushSound(s.(elements := s.elements + 1, attributes := s.attributes + |tag.attributes|), Open(s, tag).value.1);
  }

  lemma {:induction false} EmptySound(s: State, tag: Tag)
    requires Sound(s) && Step(s, Empty(tag)).Ok?
    ensures Sound(Step(s, Empty(tag)).value)
  {
    hide ElementFrom;
    hide NamespaceOf;
    hide AllPromoted;
    OpenedIsPromoted(tag, s.attributes);
    FinishSound(s.(elements := s.elements + 1, attributes := s.attributes + |tag.attributes|), Open(s, tag).value.1);
  }

  /** Whatever the event, an accepted step keeps the limits and the promotion rule. */
  lemma {:induction false} StepSound(s: State, event: Event)
    requires Sound(s)
    ensures Step(s, event).Ok? ==> Sound(Step(s, event).value)
  {
    if Step(s, event).Ok? {
      match event {
        case Start(tag) => StartSound(s, tag);
        case Empty(tag) => EmptySound(s, tag);
        case End => PopSound(s);
        case Chars(text) => TextSound(s, text);
        case Reference(name) => TextSound(s, XmlText.ResolveEntity(name).value);
        case Skipped =>
        case LexicalFault =>
      }
    }
  }

  lemma {:induction false} RunSound(s: State, events: seq<Event>)
    requires Sound(s)
    ensures Run(s, events).Ok? ==> Sound(Run(s, events).value)
    decreases |events|
  {
    if events != [] && Step(s, events[0]).Ok? {
      StepSound(s, events[0]);
      RunSound(Step(s, events[0]).value, events[1..]);
    }
  }

  lemma {:induction false} RunConcat(s: State, a: seq<Event>, b: seq<Event>)
    ensures Run(s, a + b) == var mid :- Run(s, a); Run(mid, b)
    decreases |a|
  {
    if a == [] {
      assert a + b == b;
    } else {
      assert (a + b)[1..] == a[1..] + b;
      if Step(s, a[0]).Ok? {
        RunConcat(Step(s, a[0]).value, a[1..], b);
      }
    }
  }
}
