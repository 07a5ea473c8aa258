/** What a written image's element says besides its blocks: declarations, keywords, working space and tables. */
module WrittenText {
  import opened Primitives
  import opened Text
  import opened BlockCodec
  import Colour
  import opened HeaderTree
  import opened HeaderParser
  import opened HeaderDocument
  import opened HeaderTrees
  import opened ImageText
  import opened ImageReader
  import opened MonolithicWriter
  import opened WrittenElements
  import opened ReadImageText
  import opened TableReader
  import opened WrittenTables
  import opened WrittenHeader

  // -------------------------------------------------- what an element has to say

  /** One element a keyword, in order, each with its three texts. */
  ghost predicate YieldsKeywords(e: Element, keywords: seq<Keyword>, f: string -> string)
  {
    var es := Named(e.children, "FITSKeyword");
    |es| == |keywords| && forall i :: 0 <= i < |es| ==> YieldsKeyword(es[i], keywords[i], f)
  }

  predicate YieldsKeyword(e: Element, k: Keyword, f: string -> string)
  {
    e.Attr("name") == Some(f(k.name)) && e.Attr("value") == Some(f(k.value)) && e.Attr("comment") == Some(f(k.comment))
  }

  /** One element a table, in order, which a reader takes for that table exactly if it is readable. */
  ghost predicate YieldsTables(e: Element, tables: seq<Table>, f: string -> string)
  {
    var es := Named(e.children, "Table");
    |es| == |tables| && forall i :: 0 <= i < |es| ==> YieldsTable(es[i], tables[i], f)
  }

  /** The working space's own element, written with the coefficients that follow from its primaries. */
  ghost predicate YieldsSpace(e: Element, space: Option<WorkingSpace>, f: string -> string)
  {
    var es := Named(e.children, "RGBWorkingSpace");
    match space
    case None => es == []
    case Some(s) =>
      match Colour.Derived(s.x, s.y)
      case None => es == []
      case Some(luminance) => |es| == 1 && YieldsPairs(es[0].attributes, s.attributes(luminance), f)
  }

  predicate YieldsPairs(read: seq<(string, string)>, pairs: seq<(string, string)>, f: string -> string)
  {
    |read| == |pairs| && forall i :: 0 <= i < |pairs| ==> read[i] == (pairs[i].0, f(pairs[i].1))
  }

  /** A name that the writer gives to elements of its own making. */
  predicate IsOwnName(name: string)
  {
    name == "FITSKeyword" || name == "RGBWorkingSpace" || name == "Table" || name == "ICCProfile" || name == "Thumbnail"
  }

  /** Under any other name stand the elements given, in order. */
  ghost predicate YieldsGiven(e: Element, given: seq<Element>)
  {
    forall name :: !IsOwnName(name) ==> Named(e.children, name) == Named(given, name)
  }

  function NamesOf(es: seq<Element>): (names: seq<string>)
    ensures |names| == |es|
  {
    seq(|es|, i requires 0 <= i < |es| => es[i].name)
  }

  function Repeated(name: string, n: nat): (names: seq<string>)
    ensures |names| == n
  {
    seq(n, _ => name)
  }

  predicate HasSpace(space: Option<WorkingSpace>) { space.Some? && Colour.Derived(space.value.x, space.value.y).Some? }

  /** The order in which an image's element has its children. */
  ghost predicate IsInOrder(e: Element, image: PendingImage, content: seq<Element>, display: seq<Element>, icc: bool,
      thumbnail: bool)
  {
    NamesOf(e.children)
    == Repeated("FITSKeyword", |image.keywords|) + NamesOf(content)
       + Repeated("RGBWorkingSpace", if HasSpace(image.space) then 1 else 0) + NamesOf(display)
       + (Repeated("ICCProfile", if icc then 1 else 0) + Repeated("Thumbnail", if thumbnail then 1 else 0))
       + Repeated("Table", |image.tables|)
  }

  lemma {:induction false} NamesConcat(a: seq<Element>, b: seq<Element>)
    ensures NamesOf(a + b) == NamesOf(a) + NamesOf(b)
  {
  }

  lemma {:induction false} NamesUnder(pieces: seq<Piece>, name: string)
    requires ReadUnder(pieces, name)
    ensures NamesOf(BuiltAll(pieces)) == Repeated(name, |pieces|)
  {
    hide Built;
    hide Meaningful;
  }

  lemma {:induction false} OrderSurvives(image: PendingImage, owned: ImageBlocks, addressing: Addressing,
      blocks: seq<StoredBlock>)
    requires InRange(image, owned, blocks) && Locatable(addressing, blocks) && WritableImage(image)
    ensures Ordinary(image.content) && Ordinary(image.display)
    ensures IsInOrder(ImageElement(image, owned, addressing, blocks), image, BuiltAll(image.content),
                      BuiltAll(image.display), owned.icc.Some?, owned.thumbnail.Some?)
  {
    hide KeywordPieces;
    hide TablePieces;
    hide NamesOf;
    hide Repeated;
    hide LocatingElement;
    hide Built;
    hide Meaningful;
    hide AllGiven;
    hide ReadUnder;
    PartsOrdinary(image);
    AncillarySurrounds(image);
    OwnNames(image);
    var k, c, s, d := KeywordPieces(image.keywords), image.content, SpacePieces(image.space), image.display;
    BuiltAllConcat(k + c + s, d);
    BuiltAllConcat(k + c, s);
    BuiltAllConcat(k, c);
    NamesConcat(BuiltAll(k) + BuiltAll(c) + BuiltAll(s), BuiltAll(d));
    NamesConcat(BuiltAll(k) + BuiltAll(c), BuiltAll(s));
    NamesConcat(BuiltAll(k), BuiltAll(c));
    NamesUnder(k, "FITSKeyword");
    NamesUnder(s, "RGBWorkingSpace");
    NamesUnder(TablePieces(image.tables), "Table");
    var profiles := ProfileElements(owned, addressing, blocks);
    var thumbs := ThumbnailElements(image, owned, addressing, blocks);
    ExtraNames(image, owned, addressing, blocks);
    NamesConcat(BuiltAncillary(image) + (profiles + thumbs), BuiltTables(image));
    NamesConcat(BuiltAncillary(image), profiles + thumbs);
    NamesConcat(profiles, thumbs);
  }

  lemma {:induction false} ExtraNames(image: PendingImage, owned: ImageBlocks, addressing: Addressing,
      blocks: seq<StoredBlock>)
    requires InRange(image, owned, blocks) && Locatable(addressing, blocks)
    ensures NamesOf(ProfileElements(owned, addressing, blocks))
         == Repeated("ICCProfile", if owned.icc.Some? then 1 else 0)
    ensures NamesOf(ThumbnailElements(image, owned, addressing, blocks))
         == Repeated("Thumbnail", if owned.thumbnail.Some? then 1 else 0)
  {
    hide ElementPairs;
    hide LocationOf;
  }

  // -------------------------------------------------- the children by name

  lemma {:induction false} SurroundingIsOrdinary(pieces: seq<Piece>)
    requires AllSurrounding(pieces)
    ensures Ordinary(pieces)
  {
  }

  /** The parts of an image's element, each a run of elements. */
  lemma {:induction false} PartsOrdinary(image: PendingImage)
    requires WritableImage(image)
    ensures Ordinary(KeywordPieces(image.keywords)) && Ordinary(image.content) && Ordinary(SpacePieces(image.space))
    ensures Ordinary(image.display) && Ordinary(TablePieces(image.tables))
  {
    hide KeywordPieces;
    hide TablePieces;
    hide SpacePieces;
    hide Surrounding;
    KeywordsAside(image.keywords);
    AsideSurrounds(KeywordPieces(image.keywords));
    SurroundingIsOrdinary(KeywordPieces(image.keywords));
    SurroundingIsOrdinary(image.content);
    SpaceSurrounds(image);
    SurroundingIsOrdinary(SpacePieces(image.space));
    SurroundingIsOrdinary(image.display);
    TablesSurround(image);
    SurroundingIsOrdinary(TablePieces(image.tables));
  }

  /** A run of pieces named so, among the elements of another name, or by its own. */
  lemma {:induction false} OwnNames(image: PendingImage)
    requires WritableImage(image)
    ensures ReadUnder(KeywordPieces(image.keywords), "FITSKeyword")
    ensures ReadUnder(SpacePieces(image.space), "RGBWorkingSpace")
    ensures ReadUnder(TablePieces(image.tables), "Table")
  {
    hide KeywordPiece;
    hide TablePiece;
    hide Colour.Derived;
    hide Built;
    hide Meaningful;
    hide IsLexableTable;
    hide AllGiven;
    forall i | 0 <= i < |image.keywords|
      ensures IsElement(KeywordPieces(image.keywords)[i]) && Meaningful(KeywordPieces(image.keywords)[i])
      ensures Built(KeywordPieces(image.keywords)[i]).Is("FITSKeyword")
    {
      KeywordBuilt(image.keywords[i]);
    }
    if image.space.Some? && !Degenerate(image) {
      var space := image.space.value;
      PlainLeafBuilt("RGBWorkingSpace", space.attributes(Colour.Derived(space.x, space.y).value));
    }
    forall i | 0 <= i < |image.tables|
      ensures IsElement(TablePieces(image.tables)[i]) && Meaningful(TablePieces(image.tables)[i])
      ensures Built(TablePieces(image.tables)[i]).Is("Table")
    {
      TableParts(image.tables[i]);
      TableIsElement(image.tables[i]);
    }
  }

  lemma {:induction false} GivenNames(pieces: seq<Piece>, name: string)
    requires AllGiven(pieces) && IsOwnName(name)
    ensures Ordinary(pieces) && Named(BuiltAll(pieces), name) == []
  {
    hide Unidentified;
    NamedNone(BuiltAll(pieces), name);
  }

  /** The children of an image's element that have some name, part by part. */
  lemma {:induction false} ChildrenNamed(image: PendingImage, owned: ImageBlocks, addressing: Addressing,
      blocks: seq<StoredBlock>, name: string)
    requires InRange(image, owned, blocks) && Locatable(addressing, blocks) && WritableImage(image)
    ensures Ordinary(KeywordPieces(image.keywords)) && Ordinary(image.content) && Ordinary(SpacePieces(image.space))
    ensures Ordinary(image.display) && Ordinary(TablePieces(image.tables))
    ensures Named(ImageElement(image, owned, addressing, blocks).children, name)
         == Named(BuiltAll(KeywordPieces(image.keywords)), name) + Named(BuiltAll(image.content), name)
            + Named(BuiltAll(SpacePieces(image.space)), name) + Named(BuiltAll(image.display), name)
            + (Named(ProfileElements(owned, addressing, blocks), name)
               + Named(ThumbnailElements(image, owned, addressing, blocks), name))
            + Named(BuiltAll(TablePieces(image.tables)), name)
  {
    hide KeywordPieces;
    hide TablePieces;
    hide SpacePieces;
    hide Named;
    hide LocatingElement;
    hide Built;
    hide Meaningful;
    PartsOrdinary(image);
    AncillarySurrounds(image);
    var k, c, s, d := KeywordPieces(image.keywords), image.content, SpacePieces(image.space), image.display;
    BuiltAllConcat(k + c + s, d);
    BuiltAllConcat(k + c, s);
    BuiltAllConcat(k, c);
    NamedConcat(BuiltAll(k) + BuiltAll(c) + BuiltAll(s), BuiltAll(d), name);
    NamedConcat(BuiltAll(k) + BuiltAll(c), BuiltAll(s), name);
    NamedConcat(BuiltAll(k), BuiltAll(c), name);
    var profiles := ProfileElements(owned, addressing, blocks);
    var thumbs := ThumbnailElements(image, owned, addressing, blocks);
    NamedConcat(BuiltAncillary(image) + (profiles + thumbs), BuiltTables(image), name);
    NamedConcat(BuiltAncillary(image), profiles + thumbs, name);
    NamedConcat(profiles, thumbs, name);
  }

  // -------------------------------------------------- the written element says it all

  lemma {:induction false} KeywordsSurvive(image: PendingImage, owned: ImageBlocks, addressing: Addressing,
      blocks: seq<StoredBlock>)
    requires InRange(image, owned, blocks) && Locatable(addressing, blocks) && WritableImage(image)
    ensures YieldsKeywords(ImageElement(image, owned, addressing, blocks), image.keywords, Same)
  {
    hide KeywordPiece;
    hide SpacePieces;
    hide TablePieces;
    hide Named;
    hide Lookup;
    hide ImageElement;
    hide LocatingElement;
    hide Built;
    hide Meaningful;
    hide AllGiven;
    var pieces := KeywordPieces(image.keywords);
    NamedHere(image, owned, addressing, blocks, "FITSKeyword");
    forall i | 0 <= i < |image.keywords|
      ensures YieldsKeyword(Built(pieces[i]), image.keywords[i], Same)
    {
      KeywordBuilt(image.keywords[i]);
    }
  }

  /** Which of the runs of pieces in an image's element have a name: each its own, and those given no other's. */
  lemma {:induction false} RunsNamed(image: PendingImage, name: string)
    requires WritableImage(image)
    ensures Ordinary(KeywordPieces(image.keywords)) && Ordinary(SpacePieces(image.space))
    ensures Ordinary(TablePieces(image.tables)) && Ordinary(image.content) && Ordinary(image.display)
    ensures var k := BuiltAll(KeywordPieces(image.keywords));
      Named(k, name) == if name == "FITSKeyword" then k else []
    ensures var s := BuiltAll(SpacePieces(image.space)); Named(s, name) == if name == "RGBWorkingSpace" then s else []
    ensures var t := BuiltAll(TablePieces(image.tables)); Named(t, name) == if name == "Table" then t else []
    ensures IsOwnName(name) ==> Named(BuiltAll(image.content), name) == [] && Named(BuiltAll(image.display), name) == []
  {
    hide KeywordPieces;
    hide SpacePieces;
    hide TablePieces;
    hide Named;
    hide Built;
    hide Meaningful;
    hide AllGiven;
    hide ReadUnder;
    PartsOrdinary(image);
    OwnNames(image);
    NamedUnder(KeywordPieces(image.keywords), "FITSKeyword");
    NamedUnder(SpacePieces(image.space), "RGBWorkingSpace");
    NamedUnder(TablePieces(image.tables), "Table");
    if IsOwnName(name) {
      GivenNames(image.content, name);
      GivenNames(image.display, name);
    }
  }

  lemma {:induction false} ExtrasNamed(image: PendingImage, owned: ImageBlocks, addressing: Addressing,
      blocks: seq<StoredBlock>, name: string)
    requires InRange(image, owned, blocks) && Locatable(addressing, blocks)
    ensures var profiles := ProfileElements(owned, addressing, blocks);
      Named(profiles, name) == if name == "ICCProfile" then profiles else []
    ensures var thumbs := ThumbnailElements(image, owned, addressing, blocks);
      Named(thumbs, name) == if name == "Thumbnail" then thumbs else []
  {
    hide ElementPairs;
    hide LocationOf;
    hide Named;
    var profiles := ProfileElements(owned, addressing, blocks);
    var thumbs := ThumbnailElements(image, owned, addressing, blocks);
    if name == "ICCProfile" {
      NamedAll(profiles, name);
    } else {
      NamedNone(profiles, name);
    }
    if name == "Thumbnail" {
      NamedAll(thumbs, name);
    } else {
      NamedNone(thumbs, name);
    }
  }

  /** Under each name of the writer's own stand the elements it made for that, and no others. */
  lemma {:induction false} NamedHere(image: PendingImage, owned: ImageBlocks, addressing: Addressing,
      blocks: seq<StoredBlock>, name: string)
    requires InRange(image, owned, blocks) && Locatable(addressing, blocks) && WritableImage(image)
    ensures Ordinary(KeywordPieces(image.keywords)) && Ordinary(SpacePieces(image.space))
    ensures Ordinary(TablePieces(image.tables)) && Ordinary(image.content) && Ordinary(image.display)
    ensures Named(ImageElement(image, owned, addressing, blocks).children, name)
         == match name
            case "FITSKeyword" => BuiltAll(KeywordPieces(image.keywords))
            case "RGBWorkingSpace" => BuiltAll(SpacePieces(image.space))
            case "Table" => BuiltAll(TablePieces(image.tables))
            case "ICCProfile" => ProfileElements(owned, addressing, blocks)
            case "Thumbnail" => ThumbnailElements(image, owned, addressing, blocks)
            case _ => Named(BuiltAll(image.content), name) + Named(BuiltAll(image.display), name)
  {
    hide KeywordPieces;
    hide SpacePieces;
    hide TablePieces;
    hide Named;
    hide ImageElement;
    hide ProfileElements;
    hide ThumbnailElements;
    hide Built;
    hide Meaningful;
    hide AllGiven;
    ChildrenNamed(image, owned, addressing, blocks, name);
    RunsNamed(image, name);
    ExtrasNamed(image, owned, addressing, blocks, name);
    hide Ordinary;
  }

  lemma {:induction false} TablesSurvive(image: PendingImage, owned: ImageBlocks, addressing: Addressing,
      blocks: seq<StoredBlock>)
    requires InRange(image, owned, blocks) && Locatable(addressing, blocks) && WritableImage(image) && Fitting(image)
    ensures YieldsTables(ImageElement(image, owned, addressing, blocks), image.tables, Same)
  {
    hide TablePiece;
    hide SpacePieces;
    hide KeywordPieces;
    hide Named;
    hide Lookup;
    hide ImageElement;
    hide LocatingElement;
    hide Built;
    hide Meaningful;
    hide AllGiven;
    hide TableOf;
    hide IsReadableTable;
    hide IsTableRead;
    hide IsLexableTable;
    var pieces := TablePieces(image.tables);
    NamedHere(image, owned, addressing, blocks, "Table");
    forall i, h: Header | 0 <= i < |image.tables|
      ensures var r := TableOf(h, Built(pieces[i]));
        (r.Ok? <==> IsReadableTable(image.tables[i], Same)) && (r.Ok? ==> IsTableRead(r.value, image.tables[i], Same))
    {
      TableReadsExactly(image.tables[i], h);
    }
  }

  lemma {:induction false} SpaceSurvives(image: PendingImage, owned: ImageBlocks, addressing: Addressing,
      blocks: seq<StoredBlock>)
    requires InRange(image, owned, blocks) && Locatable(addressing, blocks) && WritableImage(image)
    ensures YieldsSpace(ImageElement(image, owned, addressing, blocks), image.space, Same)
  {
    hide TablePieces;
    hide KeywordPieces;
    hide Named;
    hide ImageElement;
    hide LocatingElement;
    hide Built;
    hide Meaningful;
    hide AllGiven;
    hide Colour.Derived;
    NamedHere(image, owned, addressing, blocks, "RGBWorkingSpace");
    if image.space.Some? && !Degenerate(image) {
      var space := image.space.value;
      PlainLeafBuilt("RGBWorkingSpace", space.attributes(Colour.Derived(space.x, space.y).value));
    }
  }

  lemma {:induction false} GivenSurvives(image: PendingImage, owned: ImageBlocks, addressing: Addressing,
      blocks: seq<StoredBlock>)
    requires InRange(image, owned, blocks) && Locatable(addressing, blocks) && WritableImage(image)
    ensures Ordinary(image.content) && Ordinary(image.display)
    ensures YieldsGiven(ImageElement(image, owned, addressing, blocks),
                        BuiltAll(image.content) + BuiltAll(image.display))
  {
    hide TablePieces;
    hide KeywordPieces;
    hide SpacePieces;
    hide Named;
    hide ImageElement;
    hide LocatingElement;
    hide Built;
    hide Meaningful;
    PartsOrdinary(image);
    forall name | !IsOwnName(name)
      ensures Named(ImageElement(image, owned, addressing, blocks).children, name)
           == Named(BuiltAll(image.content) + BuiltAll(image.display), name)
    {
      NamedHere(image, owned, addressing, blocks, name);
      NamedConcat(BuiltAll(image.content), BuiltAll(image.display), name);
    }
  }
}
