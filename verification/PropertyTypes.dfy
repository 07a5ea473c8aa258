/** The types of property values and table fields, by the names they are declared with. */
module PropertyTypes {
  import opened Primitives
  import opened Text

  datatype Scalar =
    | Int8 | UInt8 | Int16 | UInt16 | Int32 | UInt32 | Int64 | UInt64 | Int128 | UInt128
    | Float32 | Float64 | Float128 | Complex32 | Complex64 | Complex128 | Boolean

  datatype PropertyType = Text | TimePoint | Tabular | Single(s: Scalar) | Vector(s: Scalar) | Matrix(s: Scalar)

  function ScalarName(s: Scalar): string
  {
    match s
    case Int8 => "Int8"
    case UInt8 => "UInt8"
    case Int16 => "Int16"
    case UInt16 => "UInt16"
    case Int32 => "Int32"
    case UInt32 => "UInt32"
    case Int64 => "Int64"
    case UInt64 => "UInt64"
    case Int128 => "Int128"
    case UInt128 => "UInt128"
    case Float32 => "Float32"
    case Float64 => "Float64"
    case Float128 => "Float128"
    case Complex32 => "Complex32"
    case Complex64 => "Complex64"
    case Complex128 => "Complex128"
    case Boolean => "Boolean"
  }

  /** A scalar's name or its other spelling. */
  function ScalarNamed(name: string): Option<Scalar>
  {
    match name
    case "Int8" => Some(Int8)
    case "UInt8" => Some(UInt8)
    case "Byte" => Some(UInt8)
    case "Int16" => Some(Int16)
    case "Short" => Some(Int16)
    case "UInt16" => Some(UInt16)
    case "UShort" => Some(UInt16)
    case "Int32" => Some(Int32)
    case "Int" => Some(Int32)
    case "UInt32" => Some(UInt32)
    case "UInt" => Some(UInt32)
    case "Int64" => Some(Int64)
    case "UInt64" => Some(UInt64)
    case "Int128" => Some(Int128)
    case "UInt128" => Some(UInt128)
    case "Float32" => Some(Float32)
    case "Float" => Some(Float32)
    case "Float64" => Some(Float64)
    case "Double" => Some(Float64)
    case "Float128" => Some(Float128)
    case "Quad" => Some(Float128)
    case "Complex32" => Some(Complex32)
    case "Complex64" => Some(Complex64)
    case "Complex" => Some(Complex64)
    case "Complex128" => Some(Complex128)
    case "Boolean" => Some(Boolean)
    case "Bool" => Some(Boolean)
    case _ => None
  }

  function PrefixFor(s: Scalar): string
  {
    match s
    case Int8 => "I8"
    case UInt8 => "UI8"
    case Int16 => "I16"
    case UInt16 => "UI16"
    case Int32 => "I32"
    case UInt32 => "UI32"
    case Int64 => "I64"
    case UInt64 => "UI64"
    case Int128 => "I128"
    case UInt128 => "UI128"
    case Float32 => "F32"
    case Float64 => "F64"
    case Float128 => "F128"
    case Complex32 => "C32"
    case Complex64 => "C64"
    case Complex128 => "C128"
    case Boolean => "Boolean"
  }

  function ElementFromPrefix(prefix: string): Option<Scalar>
  {
    match prefix
    case "I8" => Some(Int8)
    case "UI8" => Some(UInt8)
    case "I16" => Some(Int16)
    case "UI16" => Some(UInt16)
    case "I32" => Some(Int32)
    case "UI32" => Some(UInt32)
    case "I64" => Some(Int64)
    case "UI64" => Some(UInt64)
    case "I128" => Some(Int128)
    case "UI128" => Some(UInt128)
    case "F32" => Some(Float32)
    case "F64" => Some(Float64)
    case "F128" => Some(Float128)
    case "C32" => Some(Complex32)
    case "C64" => Some(Complex64)
    case "C128" => Some(Complex128)
    case _ => None
  }

  /** Aggregates whose whole name is another spelling. */
  function AggregateNamed(name: string): Option<PropertyType>
  {
    match name
    case "ByteArray" => Some(Vector(UInt8))
    case "IVector" => Some(Vector(Int32))
    case "UIVector" => Some(Vector(UInt32))
    case "Vector" => Some(Vector(Float64))
    case "ByteMatrix" => Some(Matrix(UInt8))
    case "IMatrix" => Some(Matrix(Int32))
    case "UIMatrix" => Some(Matrix(UInt32))
    case "Matrix" => Some(Matrix(Float64))
    case _ => None
  }

  function TypeName(t: PropertyType): string
  {
    match t
    case Text => "String"
    case TimePoint => "TimePoint"
    case Tabular => "Table"
    case Single(s) => ScalarName(s)
    case Vector(s) => PrefixFor(s) + "Vector"
    case Matrix(s) => PrefixFor(s) + "Matrix"
  }

  function TypeNamed(name: string): Result<PropertyType>
  {
    if name == "String" then Ok(Text)
    else if name == "TimePoint" then Ok(TimePoint)
    else if name == "Table" then Ok(Tabular)
    else
      match ScalarNamed(name)
      case Some(s) => Ok(Single(s))
      case None =>
        match AggregateNamed(name)
        case Some(t) => Ok(t)
        case None => AggregateSpelled(name)
  }

  function AggregateSpelled(name: string): Result<PropertyType>
  {
    match StripSuffix(name, "Vector")
    case Some(prefix) =>
      (match ElementFromPrefix(prefix) case Some(s) => Ok(Vector(s)) case None => Err(Unsupported))
    case None =>
      match StripSuffix(name, "Matrix")
      case Some(prefix) =>
        (match ElementFromPrefix(prefix) case Some(s) => Ok(Matrix(s)) case None => Err(Unsupported))
      case None => Err(Unsupported)
  }

  lemma {:induction false} ScalarReadsBack(s: Scalar)
    ensures ScalarNamed(ScalarName(s)) == Some(s)
    ensures ScalarName(s) != "String" && ScalarName(s) != "TimePoint" && ScalarName(s) != "Table"
  {
  }

  /** An aggregate's name is long enough to be none of the others, and ends in what it is. */
  lemma {:induction false} PrefixReadsBack(s: Scalar)
    ensures ElementFromPrefix(PrefixFor(s)) == if s == Boolean then None else Some(s)
    ensures PrefixFor(s) != "" && PrefixFor(s) != "I" && PrefixFor(s) != "UI" && PrefixFor(s) != "Byte"
  {
  }

  lemma {:induction false} AggregateIsSpelled(prefix: string, ending: string)
    requires (ending == "Vector" || ending == "Matrix") && prefix != "" && prefix != "I" && prefix != "UI"
    requires prefix != "Byte"
    ensures TypeNamed(prefix + ending) == AggregateSpelled(prefix + ending)
    ensures StripSuffix(prefix + ending, "Vector") == if ending == "Vector" then Some(prefix) else None
    ensures StripSuffix(prefix + ending, "Matrix") == if ending == "Matrix" then Some(prefix) else None
  {
    var name := prefix + ending;
    assert name[|prefix|..] == ending && name[..|prefix|] == prefix;
    assert name[|name| - 1] == ending[5] && name[|name| - 6] == ending[0];
    assert ending[0] != 'B' && (ending[5] == 'r' || ending[5] == 'x');
    NotAlone(name, prefix, ending);
  }

  lemma {:induction false} NotAlone(name: string, prefix: string, ending: string)
    requires (ending == "Vector" || ending == "Matrix") && name == prefix + ending
    requires prefix != "" && prefix != "I" && prefix != "UI" && prefix != "Byte"
    ensures ScalarNamed(name) == None && AggregateNamed(name) == None
    ensures name != "String" && name != "TimePoint" && name != "Table"
  {
    assert name[..|name| - 6] == prefix && name[|name| - 1] == ending[5];
    assert "IVector"[..1] == "I" && "IMatrix"[..1] == "I" && "UIVector"[..2] == "UI" && "UIMatrix"[..2] == "UI";
    assert "ByteMatrix"[..4] == "Byte" && "Vector"[..0] == "" && "Matrix"[..0] == "";
  }

  /** A type reads back by its name exactly when it is not an aggregate of truth values, whose name is not read. */
  lemma {:induction false} TypeReadsBackExactly(t: PropertyType)
    ensures TypeNamed(TypeName(t)) == if t == Vector(Boolean) || t == Matrix(Boolean) then Err(Unsupported) else Ok(t)
  {
    match t {
      case Single(s) => ScalarReadsBack(s);
      case Vector(s) =>
        PrefixReadsBack(s);
        AggregateIsSpelled(PrefixFor(s), "Vector");
      case Matrix(s) =>
        PrefixReadsBack(s);
        AggregateIsSpelled(PrefixFor(s), "Matrix");
      case _ =>
    }
  }
}
