/** What a run of a document's content adds to the element around it: its text, and its elements. */
module DocumentContent {
  import opened Primitives
  import XmlText
  import opened HeaderTree
  import opened HeaderMachine
  import opened HeaderParser
  import opened HeaderDocument

  // -------------------------------------------------- text

  /** The character data directly in a run of content, references resolved. */
  function TextOf(items: seq<Piece>): string
    requires MeaningfulIn(items)
  {
    if items == [] then ""
    else
      assert Meaningful(items[0]);
      (match items[0]
       case Words(text) => text
       case Ref(name) => XmlText.ResolveEntity(name).value
       case _ => "") + TextOf(items[1..])
  }

  /** No element among these carries a block for the element around them. */
  predicate NoData(items: seq<Piece>)
    requires MeaningfulIn(items)
  {
    items == [] || (Meaningful(items[0]) && (IsElement(items[0]) ==> !Built(items[0]).Is("Data")) && NoData(items[1..]))
  }

  function WithText(data: DataRef, text: string): DataRef
  {
    if text == "" then data else data.(text := Some(data.text.GetOr("") + text))
  }

  lemma {:induction false} WithTextTwice(data: DataRef, a: string, b: string)
    ensures WithText(WithText(data, a), b) == WithText(data, a + b)
  {
    if a == "" {
      assert a + b == b;
    } else if b == "" {
      assert a + b == a;
    } else {
      assert data.text.GetOr("") + a + b == data.text.GetOr("") + (a + b);
    }
  }

  /** Content without `Data` elements only adds its text. */
  lemma {:induction false} FilledText(e: Element, items: seq<Piece>)
    requires MeaningfulIn(items) && NoData(items)
    ensures Filled(e, items).data == WithText(e.data, TextOf(items))
    decreases |items|
  {
    if items != [] {
      var next := Filled(e, [items[0]]);
      FirstThenRest(e, items);
      FilledText(next, items[1..]);
      WithTextTwice(e.data, TextOf([items[0]]), TextOf(items[1..]));
    }
  }

  lemma {:induction false} FirstThenRest(e: Element, items: seq<Piece>)
    requires items != [] && MeaningfulIn(items)
    ensures MeaningfulIn([items[0]]) && MeaningfulIn(items[1..])
    ensures Filled(e, items) == Filled(Filled(e, [items[0]]), items[1..])
    ensures TextOf(items) == TextOf([items[0]]) + TextOf(items[1..])
    ensures NoData(items) ==>
      NoData(items[1..]) && Filled(e, [items[0]]).data == WithText(e.data, TextOf([items[0]]))
  {
    var one := [items[0]];
    assert one[1..] == [];
    OneText(items[0]);
    if NoData(items) {
      FilledOne(e, items[0]);
    }
  }

  lemma {:induction false} OneText(piece: Piece)
    requires Meaningful(piece)
    ensures MeaningfulIn([piece])
    ensures TextOf([piece]) == match piece
                               case Words(text) => text
                               case Ref(name) => XmlText.ResolveEntity(name).value
                               case _ => ""
  {
    var one := [piece];
    assert one[1..] == [] && TextOf([]) == "";
  }

  lemma {:induction false} FilledOne(e: Element, piece: Piece)
    requires Meaningful(piece) && (IsElement(piece) ==> !Built(piece).Is("Data"))
    ensures MeaningfulIn([piece]) && Filled(e, [piece]).data == WithText(e.data, TextOf([piece]))
  {
    hide XmlText.ResolveEntity;
    OneText(piece);
    var one := [piece];
    assert one[1..] == [];
    hide TextOf;
    hide Built;
    match piece {
      case Words(text) => assert Filled(e, one) == AppendText(e, text);
      case Ref(name) => assert Filled(e, one) == AppendText(e, XmlText.ResolveEntity(name).value);
      case Note => assert Filled(e, one) == e;
      case _ => assert Filled(e, one) == Adopt(e, Built(piece));
    }
  }

  lemma {:induction false} FilledConcat(e: Element, a: seq<Piece>, b: seq<Piece>)
    requires MeaningfulIn(a + b)
    ensures MeaningfulIn(a) && MeaningfulIn(b) && Filled(e, a + b) == Filled(Filled(e, a), b)
    decreases |a|
  {
    if a == [] {
      assert a + b == b;
    } else {
      assert (a + b)[0] == a[0] && (a + b)[1..] == a[1..] + b;
      FirstThenRest(e, a + b);
      FilledConcat(Filled(e, [a[0]]), a[1..], b);
      FirstThenRest(e, a);
    }
  }

  // -------------------------------------------------- elements

  /** A piece of a document stands somewhere inside another, or is it. */
  ghost predicate Inside(piece: Piece, outer: Piece)
    decreases outer
  {
    piece == outer || (outer.Node? && exists i :: 0 <= i < |outer.items| && Inside(piece, outer.items[i]))
  }

  lemma {:induction false} AdoptedStay(e: Element, items: seq<Piece>)
    requires MeaningfulIn(items)
    ensures forall child <- e.children :: child in Filled(e, items).children
    decreases |items|
  {
    if items != [] {
      FirstThenRest(e, items);
      var next := Filled(e, [items[0]]);
      OneAdopted(e, items[0]);
      AdoptedStay(next, items[1..]);
    }
  }

  lemma {:induction false} OneAdopted(e: Element, piece: Piece)
    requires Meaningful(piece)
    ensures MeaningfulIn([piece])
    ensures Filled(e, [piece]).children == e.children + if IsElement(piece) then [Built(piece)] else []
  {
    hide XmlText.ResolveEntity;
    var one := [piece];
    assert one[1..] == [];
    assert e.children + [] == e.children;
    if IsElement(piece) {
      hide Built;
      assert Filled(e, one) == Adopt(e, Built(piece));
    }
  }

  /** Every element in a run of content is among the children of the element it fills. */
  lemma {:induction false} ChildIsRead(e: Element, items: seq<Piece>, i: nat)
    requires MeaningfulIn(items) && i < |items| && IsElement(items[i])
    ensures Meaningful(items[i]) && Built(items[i]) in Filled(e, items).children
    decreases |items|
  {
    FirstThenRest(e, items);
    var next := Filled(e, [items[0]]);
    if i == 0 {
      OneAdopted(e, items[0]);
      AdoptedStay(next, items[1..]);
    } else {
      ChildIsRead(next, items[1..], i - 1);
    }
  }

  lemma {:induction false} ChildInPreorder(e: Element, child: Element, es: seq<Element>)
    requires child in es && e in Preorder(child)
    ensures e in PreorderAll(es)
  {
    if child != es[0] {
      ChildInPreorder(e, child, es[1..]);
    }
  }

  lemma {:induction false} InsideIsRead(piece: Piece, outer: Piece)
    requires Inside(piece, outer) && IsElement(piece) && IsElement(outer) && Meaningful(outer)
    ensures Meaningful(piece) && Built(piece) in Preorder(Built(outer))
    decreases outer
  {
    if piece != outer {
      var i :| 0 <= i < |outer.items| && Inside(piece, outer.items[i]);
      var item := outer.items[i];
      assert IsElement(item) by {
        assert item.Node? || piece == item;
      }
      ChildIsRead(TagElement(outer.tag).value, outer.items, i);
      InsideIsRead(piece, item);
      ChildInPreorder(Built(piece), Built(item), Built(outer).children);
    }
  }

  /** Every element of a document that parses is an element of the header. */
  lemma {:induction false} ElementIsRead(items: seq<Piece>, piece: Piece)
    requires Parse(EventsIn(items)).Ok? && RootOf(items).Some? && Inside(piece, RootOf(items).value) && IsElement(piece)
    ensures Meaningful(piece) && Built(piece) in Preorder(Parse(EventsIn(items)).value.root)
  {
    hide EventsIn;
    hide Parse;
    DocumentParsesExactly(items);
    InsideIsRead(piece, RootOf(items).value);
  }
}
