/** Reading what an image's element declares. */
module ImageReader {
  import opened Primitives
  import opened Text
  import opened GeometryAttribute
  import opened PlanarSamples
  import opened HeaderTree
  import Literals
  import opened ImageText

  /** The foreign parser of floating-point numbers. */
  type NumberParser = string -> Option<real>

  function FormatNamed(name: string): Option<SampleFormat>
  {
    match name
    case "UInt8" => Some(UInt8)
    case "UInt16" => Some(UInt16)
    case "UInt32" => Some(UInt32)
    case "UInt64" => Some(UInt64)
    case "Float32" => Some(Float32)
    case "Float64" => Some(Float64)
    case "Complex32" => Some(Complex32)
    case "Complex64" => Some(Complex64)
    case _ => None
  }

  function ColourNamed(name: string): Option<ColourSpace>
  {
    match name
    case "Gray" => Some(Gray)
    case "RGB" => Some(Rgb)
    case "CIELab" => Some(CieLab)
    case _ => None
  }

  function StorageNamed(name: string): Option<PixelStorage>
  {
    match name
    case "Planar" => Some(Planar)
    case "Normal" => Some(Normal)
    case _ => None
  }

  /** A name if there is one, else the default; an unknown name is refused. */
  function NamedOr<T>(name: Option<string>, named: string -> Option<T>, default: T): Result<T>
  {
    if name.None? then Ok(default)
    else match named(name.value) case Some(x) => Ok(x) case None => Err(Unsupported)
  }

  function ParseOrientation(text: string): Result<Orientation>
  {
    var (rotation, flip) := match StripSuffix(text, ";flip")
      case Some(rest) => (rest, true)
      case None => if text == "flip" then ("0", true) else (text, false);
    match rotation
    case "0" => Ok(Orientation(0, flip))
    case "90" => Ok(Orientation(90, flip))
    case "180" => Ok(Orientation(180, flip))
    case "-90" => Ok(Orientation(-90, flip))
    case _ => Err(BadAttribute)
  }

  /** A lower and an upper bound, in that order. */
  predicate IsBounds(number: NumberParser, text: string)
  {
    match SplitOnce(text, ':')
    case None => false
    case Some((low, high)) =>
      var l, h := number(Trim(low)), number(Trim(high));
      l.Some? && h.Some? && l.value < h.value
  }

  /** Bounds are a lower and a greater number with a colon between them, and white space around either. */
  lemma {:induction false} BoundsExactly(number: NumberParser, text: string)
    ensures IsBounds(number, text) <==>
      exists low, high, a, b ::
        text == a + [':'] + b && ':' !in a && number(Trim(a)) == Some(low) && number(Trim(b)) == Some(high)
        && low < high
  {
    hide Trim;
    var split := SplitOnce(text, ':');
    if split.Some? {
      SplitOnceExactly(text, ':', split.value.0, split.value.1);
    }
    forall a, b | text == a + [':'] + b && ':' !in a
      ensures split == Some((a, b))
    {
      SplitOnceExactly(text, ':', a, b);
    }
  }

  /** An offset is a number, and not a negative one. */
  predicate IsOffset(number: NumberParser, text: string)
  {
    var value := number(Trim(text));
    value.Some? && value.value >= 0.0
  }

  /** A text that has to be well formed if it is there. */
  function Kept(text: Option<string>, ok: string -> bool): Result<Option<string>>
  {
    if text.Some? && !ok(text.value) then Err(BadAttribute) else Ok(text)
  }

  function OrientationOf(text: Option<string>): Result<Option<Orientation>>
  {
    if text.None? then Ok(None)
    else
      var o :- ParseOrientation(text.value);
      Ok(Some(o))
  }

  /** What an element declares as an image, whatever its own name. */
  function DeclaredIn(number: NumberParser, e: Element): Result<Image>
  {
    if e.Attr("geometry").None? then Err(BadHeader)
    else
      var (dimensions, channels) :- Geometry(e.Attr("geometry").value);
      if e.Attr("sampleFormat").None? then Err(BadHeader)
      else
        match FormatNamed(e.Attr("sampleFormat").value)
        case None => Err(Unsupported)
        case Some(format) =>
          var colour :- NamedOr(e.Attr("colorSpace"), ColourNamed, Gray);
          var storage :- NamedOr(e.Attr("pixelStorage"), StorageNamed, Planar);
          var bounds :- Kept(e.Attr("bounds"), text => IsBounds(number, text));
          var offset :- Kept(e.Attr("offset"), text => IsOffset(number, text));
          var orientation :- OrientationOf(e.Attr("orientation"));
          Ok(Image(dimensions, channels, format, colour, storage, bounds, e.Attr("id"), e.Attr("imageType"),
                   e.Attr("uuid"), offset, orientation))
  }

  function ImageOf(number: NumberParser, e: Element): Result<Image>
  {
    if e.name != "Image" then Err(InvalidArgument) else DeclaredIn(number, e)
  }

  /** A thumbnail is read as the image it is, under its own name. */
  function ThumbnailOf(number: NumberParser, e: Element): Result<Image>
  {
    if e.name != "Thumbnail" then Err(InvalidArgument) else ImageOf(number, e.(name := "Image"))
  }

  // -------------------------------------------------- names read back

  lemma {:induction false} FormatReadsBack(format: SampleFormat)
    ensures FormatNamed(FormatName(format)) == Some(format)
  {
  }

  lemma {:induction false} ColourReadsBack(colour: ColourSpace, storage: PixelStorage)
    ensures ColourNamed(ColourName(colour)) == Some(colour) && StorageNamed(StorageName(storage)) == Some(storage)
  {
  }

  predicate IsQuarterTurn(rotation: int) { rotation == 0 || rotation == 90 || rotation == 180 || rotation == -90 }

  lemma {:induction false} DecimalShape(n: nat)
    ensures |Decimal(n)| > 0 && Decimal(n)[0] != '-' && DigitValue(Decimal(n)[|Decimal(n)| - 1]).Some?
  {
    DigitsAreDigits(n, 10);
    assert DigitValue('-') == None;
  }

  lemma {:induction false} IntegerShape(n: int)
    ensures var text := Literals.IntegerText(n);
      |text| > 0 && (n < 0 <==> text[0] == '-') && DigitValue(text[|text| - 1]).Some?
      && Decimal(if n < 0 then -n else n) == if n < 0 then text[1..] else text
  {
    hide Digits;
    hide DigitValue;
    DecimalShape(if n < 0 then -n else n);
  }

  lemma {:induction false} IntegersDiffer(m: int, n: int)
    ensures Literals.IntegerText(m) == Literals.IntegerText(n) ==> m == n
  {
    hide Digits;
    hide ParseDigits;
    hide Literals.IntegerText;
    IntegerShape(m);
    IntegerShape(n);
    ParsePrinted(if m < 0 then -m else m, 10);
    ParsePrinted(if n < 0 then -n else n, 10);
  }

  lemma {:induction false} QuarterTurns()
    ensures Literals.IntegerText(0) == "0" && Literals.IntegerText(90) == "90"
    ensures Literals.IntegerText(180) == "180" && Literals.IntegerText(-90) == "-90"
  {
    assert Decimal(90) == Decimal(9) + "0" && Decimal(180) == Decimal(18) + "0" && Decimal(18) == Decimal(1) + "8";
  }

  lemma {:induction false} TurnReads(rotation: int, flip: bool)
    ensures var text := Literals.IntegerText(rotation) + if flip then ";flip" else "";
      ParseOrientation(text) == if IsQuarterTurn(rotation) then Ok(Orientation(rotation, flip)) else Err(BadAttribute)
  {
    hide Literals.IntegerText;
    QuarterTurns();
    IntegerShape(rotation);
    IntegersDiffer(rotation, 0);
    IntegersDiffer(rotation, 90);
    IntegersDiffer(rotation, 180);
    IntegersDiffer(rotation, -90);
    var turn := Literals.IntegerText(rotation);
    var text := turn + if flip then ";flip" else "";
    if flip {
      assert text[|turn|..] == ";flip" && text[..|turn|] == turn;
    } else {
      assert text == turn && DigitValue('p') == None;
    }
  }

  /** An orientation reads back exactly when it is a turn by a multiple of a right angle, as the format spells those. */
  lemma {:induction false} OrientationReadsBackExactly(o: Orientation)
    ensures ParseOrientation(OrientationText(o)) == if IsQuarterTurn(o.rotation) then Ok(o) else Err(BadAttribute)
  {
    TurnReads(o.rotation, o.flip);
    assert "flip"[0] == 'f';
  }

  // -------------------------------------------------- which declarations are read

  /** A shape whose geometry a reader takes. */
  predicate IsReadable(shape: Shape)
  {
    shape.dimensions != [] && shape.channels != 0 && 0 !in shape.dimensions
  }

  /** A declaration that a reader takes. */
  predicate IsReadableImage(number: NumberParser, image: Image)
  {
    IsReadable(ShapeOf(image)) && (image.bounds.Some? ==> IsBounds(number, image.bounds.value))
    && (image.offset.Some? ==> IsOffset(number, image.offset.value))
    && (image.orientation.Some? ==> IsQuarterTurn(image.orientation.value.rotation))
  }

  /** An element says of itself, key by key, what an image declares. */
  ghost predicate Says(e: Element, image: Image)
  {
    e.Attr("geometry") == Some(GeometryText(image.dimensions, image.channels))
    && e.Attr("sampleFormat") == Some(FormatName(image.format))
    && e.Attr("colorSpace") == Some(ColourName(image.colour))
    && e.Attr("pixelStorage") == Some(StorageName(image.storage))
    && e.Attr("bounds") == image.bounds && e.Attr("id") == image.id && e.Attr("imageType") == image.kind
    && e.Attr("uuid") == image.uuid && e.Attr("offset") == image.offset
    && e.Attr("orientation") == OrientationGiven(image.orientation)
  }

  /** Exactly which declarations are read back, and every one of them as it is. */
  lemma {:induction false} DeclarationReadsExactly(number: NumberParser, e: Element, image: Image)
    requires Says(e, image)
    ensures DeclaredIn(number, e).Ok? <==> IsReadableImage(number, image)
    ensures DeclaredIn(number, e).Ok? ==> DeclaredIn(number, e) == Ok(image)
  {
    hide Lookup;
    hide Geometry;
    hide GeometryText;
    hide FormatName;
    hide FormatNamed;
    hide ColourName;
    hide StorageName;
    hide ParseOrientation;
    hide OrientationText;
    hide IsBounds;
    hide IsOffset;
    hide IsQuarterTurn;
    GeometryReadsBackExactly(image.dimensions, image.channels);
    FormatReadsBack(image.format);
    ColourReadsBack(image.colour, image.storage);
    if image.orientation.Some? {
      OrientationReadsBackExactly(image.orientation.value);
    }
  }

  /** An image turned by half a right angle, which the writer can be given and no reader takes. */
  lemma {:induction false} HalfTurnUnread(number: NumberParser, image: Image)
    ensures !IsReadableImage(number, image.(orientation := Some(Orientation(45, false))))
  {
  }
}
