/** Documents written out as events, and exactly which of them the stack machine reads back. */
module HeaderDocument {
  import opened Primitives
  import XmlText
  import opened HeaderTree
  import opened HeaderMachine
  import opened HeaderParser

  /** A piece of a document: an element, open or written as an empty tag, or something between tags. */
  datatype Piece =
    | Node(tag: Tag, items: seq<Piece>)
    | Leaf(tag: Tag)
    | Words(text: string)
    | Ref(name: string)
    | Note

  function Events(piece: Piece): seq<Event>
    decreases piece, 1
  {
    match piece
    case Node(tag, items) => [Start(tag)] + EventsIn(items) + [End]
    case Leaf(tag) => [Empty(tag)]
    case Words(text) => [Chars(text)]
    case Ref(name) => [Reference(name)]
    case Note => [Skipped]
  }

  function EventsIn(items: seq<Piece>): seq<Event>
    decreases items, 0
  {
    if items == [] then [] else Events(items[0]) + EventsIn(items[1..])
  }

  // -------------------------------------------------- what a document holds

  predicate IsElement(piece: Piece) { piece.Node? || piece.Leaf? }

  function Elements(piece: Piece): nat
    decreases piece, 1
  {
    match piece
    case Node(_, items) => 1 + ElementsIn(items)
    case Leaf(_) => 1
    case _ => 0
  }

  function ElementsIn(items: seq<Piece>): nat
    decreases items, 0
  {
    if items == [] then 0 else Elements(items[0]) + ElementsIn(items[1..])
  }

  function Attributes(piece: Piece): nat
    decreases piece, 1
  {
    match piece
    case Node(tag, items) => |tag.attributes| + AttributesIn(items)
    case Leaf(tag) => |tag.attributes|
    case _ => 0
  }

  function AttributesIn(items: seq<Piece>): nat
    decreases items, 0
  {
    if items == [] then 0 else Attributes(items[0]) + AttributesIn(items[1..])
  }

  /** How many open tags nest; an empty tag opens nothing. */
  function OpenDepth(piece: Piece): nat
    decreases piece, 1
  {
    if piece.Node? then 1 + OpenDepthIn(piece.items) else 0
  }

  function OpenDepthIn(items: seq<Piece>): nat
    decreases items, 0
  {
    if items == [] then 0 else Max(OpenDepth(items[0]), OpenDepthIn(items[1..]))
  }

  /** Every tag is well formed and every reference has a meaning. */
  predicate Meaningful(piece: Piece)
    decreases piece, 1
  {
    match piece
    case Node(tag, items) => TagElement(tag).Ok? && MeaningfulIn(items)
    case Leaf(tag) => TagElement(tag).Ok?
    case Ref(name) => XmlText.ResolveEntity(name).Some?
    case _ => true
  }

  predicate MeaningfulIn(items: seq<Piece>)
    decreases items, 0
  {
    items == [] || (Meaningful(items[0]) && MeaningfulIn(items[1..]))
  }

  /** The element a document element stands for, defined by recursion over the document. */
  function Built(piece: Piece): Element
    requires IsElement(piece) && Meaningful(piece)
    decreases piece, 1
  {
    var e := TagElement(piece.tag).value;
    if piece.Leaf? then e else Filled(e, piece.items)
  }

  /** An element with a run of content put into it. */
  function Filled(e: Element, items: seq<Piece>): Element
    requires MeaningfulIn(items)
    decreases items, 0
  {
    if items == [] then e
    else
      assert Meaningful(items[0]);
      var next := match items[0]
        case Words(text) => AppendText(e, text)
        case Ref(name) => AppendText(e, XmlText.ResolveEntity(name).value)
        case Note => e
        case _ => Adopt(e, Built(items[0]));
      Filled(next, items[1..])
  }

  // -------------------------------------------------- the machine builds the document

  predicate Fits(s: State, piece: Piece)
  {
    Meaningful(piece) && s.elements + Elements(piece) <= MAX_ELEMENTS
    && s.attributes + Attributes(piece) <= MAX_ATTRIBUTES && |s.stack| + OpenDepth(piece) <= MAX_DEPTH
  }

  predicate FitsIn(s: State, items: seq<Piece>)
  {
    MeaningfulIn(items) && s.elements + ElementsIn(items) <= MAX_ELEMENTS
    && s.attributes + AttributesIn(items) <= MAX_ATTRIBUTES && |s.stack| + OpenDepthIn(items) <= MAX_DEPTH
  }

  predicate InBudget(s: State)
  {
    s.elements <= MAX_ELEMENTS && s.attributes <= MAX_ATTRIBUTES && |s.stack| <= MAX_DEPTH
  }

  function Spend(s: State, elements: nat, attributes: nat): State
  {
    s.(elements := s.elements + elements, attributes := s.attributes + attributes)
  }

  /** The state after a piece that fits, whether inside an element or at top level. */
  function After(s: State, piece: Piece): State
    requires Meaningful(piece)
  {
    match piece
    case Words(text) => PushText(s, text)
    case Ref(name) => PushText(s, XmlText.ResolveEntity(name).value)
    case Note => s
    case _ => Finish(Spend(s, Elements(piece), Attributes(piece)), Built(piece))
  }

  function AfterIn(s: State, items: seq<Piece>): State
    requires MeaningfulIn(items)
    decreases |items|
  {
    if items == [] then s else AfterIn(After(s, items[0]), items[1..])
  }

  /** Inside an element, a run of content fills that element and spends the counters. */
  lemma {:induction false} FillsTop(s: State, e: Element, items: seq<Piece>)
    requires MeaningfulIn(items)
    ensures AfterIn(s.(stack := s.stack + [e]), items)
         == Spend(s, ElementsIn(items), AttributesIn(items)).(stack := s.stack + [Filled(e, items)])
    decreases |items|
  {
    if items != [] {
      var piece := items[0];
      var next := Filled(e, [piece]);
      assert [piece][1..] == [];
      FillsOnce(s, e, piece);
      FillsTop(Spend(s, Elements(piece), Attributes(piece)), next, items[1..]);
    }
  }

  lemma {:induction false} FillsOnce(s: State, e: Element, piece: Piece)
    requires Meaningful(piece)
    ensures MeaningfulIn([piece])
    ensures After(s.(stack := s.stack + [e]), piece)
         == Spend(s, Elements(piece), Attributes(piece)).(stack := s.stack + [Filled(e, [piece])])
  {
    assert [piece][1..] == [];
    forall x: Element
      ensures (s.stack + [e])[|s.stack| := x] == s.stack + [x]
    {
    }
  }

  /** A tag that is well formed and within the limits makes its element; otherwise the parse ends. */
  lemma {:induction false} OpenSteps(s: State, tag: Tag)
    requires InBudget(s)
    ensures var fits := TagElement(tag).Ok? && s.elements + 1 <= MAX_ELEMENTS
              && s.attributes + |tag.attributes| <= MAX_ATTRIBUTES;
      (Step(s, Empty(tag)).Ok? <==> fits)
      && (fits ==> Step(s, Empty(tag)) == Ok(Finish(Spend(s, 1, |tag.attributes|), TagElement(tag).value)))
      && (Step(s, Start(tag)).Ok? <==> fits && |s.stack| < MAX_DEPTH)
      && (fits && |s.stack| < MAX_DEPTH ==>
            Step(s, Start(tag)) == Ok(Spend(s, 1, |tag.attributes|).(stack := s.stack + [TagElement(tag).value])))
  {
    ElementFromIs(tag, s.attributes);
  }

  lemma {:induction false} RunOne(s: State, event: Event)
    ensures Run(s, [event]) == Step(s, event)
  {
    assert [event][1..] == [];
  }

  /** One piece of a document is read exactly when it fits, and leaves the machine as `After` says. */
  lemma {:induction false} RunPiece(s: State, piece: Piece)
    requires InBudget(s)
    ensures Run(s, Events(piece)).Ok? <==> Fits(s, piece)
    ensures Fits(s, piece) ==> Run(s, Events(piece)) == Ok(After(s, piece)) && InBudget(After(s, piece))
    decreases piece, 1
  {
    match piece {
      case Node(tag, items) =>
        OpenSteps(s, tag);
        NodeRuns(s, tag, items);
        if Step(s, Start(tag)).Ok? {
          RunPieces(Step(s, Start(tag)).value, items);
          NodeFitsExactly(s, tag, items);
          if Fits(s, piece) {
            NodeEnds(s, tag, items);
          }
        }
      case Leaf(tag) =>
        OpenSteps(s, tag);
        RunOne(s, Empty(tag));
      case Words(text) => RunOne(s, Chars(text));
      case Ref(name) => RunOne(s, Reference(name));
      case Note => RunOne(s, Skipped);
    }
  }

  lemma {:induction false} NodeRuns(s: State, tag: Tag, items: seq<Piece>)
    ensures Run(s, Events(Node(tag, items)))
         == var inside :- Step(s, Start(tag)); var filled :- Run(inside, EventsIn(items)); Step(filled, End)
  {
    RunConcat(s, [Start(tag)] + EventsIn(items), [End]);
    RunConcat(s, [Start(tag)], EventsIn(items));
    RunOne(s, Start(tag));
    var inside := Step(s, Start(tag));
    if inside.Ok? && Run(inside.value, EventsIn(items)).Ok? {
      RunOne(Run(inside.value, EventsIn(items)).value, End);
    }
  }

  lemma {:induction false} NodeFitsExactly(s: State, tag: Tag, items: seq<Piece>)
    requires InBudget(s) && Step(s, Start(tag)).Ok?
    ensures FitsIn(Step(s, Start(tag)).value, items) <==> Fits(s, Node(tag, items))
  {
    OpenSteps(s, tag);
  }

  lemma {:induction false} NodeEnds(s: State, tag: Tag, items: seq<Piece>)
    requires InBudget(s) && Step(s, Start(tag)).Ok? && Fits(s, Node(tag, items))
    ensures Step(AfterIn(Step(s, Start(tag)).value, items), End) == Ok(After(s, Node(tag, items)))
  {
    hide TagElement;
    hide Finish;
    hide AfterIn;
    hide Adopt;
    hide Filled;
    hide MeaningfulIn;
    OpenSteps(s, tag);
    var counted, e := Spend(s, 1, |tag.attributes|), TagElement(tag).value;
    FillsTop(counted, e, items);
    Closes(Spend(counted, ElementsIn(items), AttributesIn(items)), Filled(e, items));
  }

  lemma {:induction false} Closes(s: State, e: Element)
    ensures Step(s.(stack := s.stack + [e]), End) == Ok(Finish(s, e))
  {
    assert (s.stack + [e])[..|s.stack|] == s.stack;
  }

  lemma {:induction false} RunPieces(s: State, items: seq<Piece>)
    requires InBudget(s)
    ensures Run(s, EventsIn(items)).Ok? <==> FitsIn(s, items)
    ensures FitsIn(s, items) ==> Run(s, EventsIn(items)) == Ok(AfterIn(s, items)) && InBudget(AfterIn(s, items))
    decreases items, 0
  {
    if items != [] {
      RunPiece(s, items[0]);
      RunConcat(s, Events(items[0]), EventsIn(items[1..]));
      if Fits(s, items[0]) {
        AfterCounts(s, items[0]);
        RunPieces(After(s, items[0]), items[1..]);
      }
    }
  }

  lemma {:induction false} AfterCounts(s: State, piece: Piece)
    requires Meaningful(piece)
    ensures var t := After(s, piece);
      |t.stack| == |s.stack| && t.elements == s.elements + Elements(piece)
        && t.attributes == s.attributes + Attributes(piece)
  {
  }

  // -------------------------------------------------- whole documents

  /** The first element at top level; a detached signature after it is not part of the header. */
  function RootOf(items: seq<Piece>): Option<Piece>
  {
    if items == [] then None else if IsElement(items[0]) then Some(items[0]) else RootOf(items[1..])
  }

  lemma {:induction false} TopRoot(s: State, items: seq<Piece>)
    requires s.stack == [] && MeaningfulIn(items)
    ensures RootOf(items).Some? ==> IsElement(RootOf(items).value) && Meaningful(RootOf(items).value)
    ensures AfterIn(s, items).stack == []
    ensures AfterIn(s, items).root ==
      if s.root.Some? then s.root else if RootOf(items).Some? then Some(Built(RootOf(items).value)) else None
    decreases |items|
  {
    if items != [] {
      TopRoot(After(s, items[0]), items[1..]);
    }
  }

  /** A document the parser accepts: all of it fits the limits, and its first element is an acceptable root. */
  predicate IsHeaderDocument(items: seq<Piece>)
  {
    FitsIn(INITIAL, items) && RootOf(items).Some? && IsElement(RootOf(items).value)
    && Meaningful(RootOf(items).value) && CheckRoot(Built(RootOf(items).value)).Ok?
  }

  /** Exactly which documents parse, and to what: the header's tree is the one the document stands for. */
  lemma {:induction false} DocumentParsesExactly(items: seq<Piece>)
    ensures Parse(EventsIn(items)).Ok? <==> IsHeaderDocument(items)
    ensures Parse(EventsIn(items)).Ok? ==> Parse(EventsIn(items)) == CheckRoot(Built(RootOf(items).value))
  {
    RunPieces(INITIAL, items);
    if MeaningfulIn(items) {
      TopRoot(INITIAL, items);
    }
  }

  // -------------------------------------------------- every accepted event stream is a document

  /** An element still open: what came before it where it stands, and its tag. */
  datatype Context = Context(before: seq<Piece>, tag: Tag)

  /** The events that lead into the open elements and through what the innermost holds so far. */
  function Flat(contexts: seq<Context>, last: seq<Piece>): seq<Event>
    decreases |contexts|
  {
    if contexts == [] then EventsIn(last)
    else
      var outer := contexts[|contexts| - 1];
      Flat(contexts[..|contexts| - 1], outer.before) + [Start(outer.tag)] + EventsIn(last)
  }

  lemma {:induction false} EventsSnoc(items: seq<Piece>, piece: Piece)
    ensures EventsIn(items + [piece]) == EventsIn(items) + Events(piece)
    decreases |items|
  {
    if items == [] {
      assert [] + [piece] == [piece] && [piece][1..] == [];
      assert EventsIn([piece]) == Events(piece) + EventsIn([]);
    } else {
      assert (items + [piece])[1..] == items[1..] + [piece];
      EventsSnoc(items[1..], piece);
    }
  }

  lemma {:induction false} FlatSnoc(contexts: seq<Context>, last: seq<Piece>, piece: Piece)
    ensures Flat(contexts, last + [piece]) == Flat(contexts, last) + Events(piece)
  {
    EventsSnoc(last, piece);
  }

  lemma {:induction false} FlatOpens(contexts: seq<Context>, last: seq<Piece>, tag: Tag)
    ensures Flat(contexts + [Context(last, tag)], []) == Flat(contexts, last) + [Start(tag)]
  {
    var deeper := contexts + [Context(last, tag)];
    assert deeper[..|deeper| - 1] == contexts;
  }

  lemma {:induction false} FlatCloses(contexts: seq<Context>, last: seq<Piece>)
    requires contexts != []
    ensures var n := |contexts| - 1; var outer := contexts[n];
      Flat(contexts[..n], outer.before + [Node(outer.tag, last)]) == Flat(contexts, last) + [End]
  {
    var n := |contexts| - 1;
    FlatSnoc(contexts[..n], contexts[n].before, Node(contexts[n].tag, last));
  }

  /** What an accepted event does to the number of open elements. */
  lemma {:induction false} StepShape(s: State, event: Event)
    requires Step(s, event).Ok?
    ensures event != LexicalFault && (event == End ==> s.stack != [])
    ensures |Step(s, event).value.stack| == |s.stack| + (if event.Start? then 1 else if event == End then -1 else 0)
  {
  }

  lemma {:induction false} AloneSpells(event: Event)
    requires !event.Start? && event != End && event != LexicalFault
    ensures Events(Alone(event)) == [event]
  {
  }

  /** The document a run of events spells, given what the events before it left open. */
  lemma {:induction false} SpelledDocument(s: State, events: seq<Event>, contexts: seq<Context>,
      last: seq<Piece>) returns (items: seq<Piece>)
    requires |contexts| == |s.stack| && Run(s, events).Ok? && Run(s, events).value.stack == []
    ensures Flat(contexts, last) + events == EventsIn(items)
    decreases |events|
  {
    hide Step;
    hide Events;
    hide EventsIn;
    if events == [] {
      items := last;
      assert Flat(contexts, last) + [] == Flat(contexts, last);
    } else {
      var event, rest := events[0], events[1..];
      var next := Step(s, event).value;
      StepShape(s, event);
      assert events == [event] + rest;
      if event.Start? {
        items := SpelledDocument(next, rest, contexts + [Context(last, event.tag)], []);
        FlatOpens(contexts, last, event.tag);
      } else if event == End {
        var n := |contexts| - 1;
        items := SpelledDocument(next, rest, contexts[..n], contexts[n].before + [Node(contexts[n].tag, last)]);
        FlatCloses(contexts, last);
      } else {
        items := SpelledDocument(next, rest, contexts, last + [Alone(event)]);
        FlatSnoc(contexts, last, Alone(event));
        AloneSpells(event);
      }
    }
  }

  /** The piece of a document that one event between tags, or one empty tag, spells. */
  function Alone(event: Event): Piece
  {
    match event
    case Empty(tag) => Leaf(tag)
    case Chars(text) => Words(text)
    case Reference(name) => Ref(name)
    case _ => Note
  }

  /** Exactly which event streams parse: those that spell an acceptable document, and to what it stands for. */
  lemma {:induction false} ParsesExactly(events: seq<Event>)
    ensures Parse(events).Ok? <==> exists items :: events == EventsIn(items) && IsHeaderDocument(items)
    ensures Parse(events).Ok? ==>
      exists items ::
        events == EventsIn(items) && IsHeaderDocument(items) && Parse(events) == CheckRoot(Built(RootOf(items).value))
  {
    if Parse(events).Ok? {
      var items := SpelledDocument(INITIAL, events, [], []);
      assert Flat([], []) + events == events;
      DocumentParsesExactly(items);
    }
    forall items | events == EventsIn(items) && IsHeaderDocument(items)
      ensures Parse(events).Ok?
    {
      DocumentParsesExactly(items);
    }
  }
}
