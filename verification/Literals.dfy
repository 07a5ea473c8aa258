/** Scalar property values: how the writer spells them and how a declared type reads their text. */
module Literals {
  import opened Primitives
  import opened Text
  import opened XmlText

  // -------------------------------------------------- numerals

  function TwoTo(n: nat): (power: int)
    ensures power > 0
  {
    PowerPositive(2, n);
    Power(2, n)
  }

  /** The digits' value, whether a minus sign came first, and the base they were in. */
  datatype Literal = Literal(magnitude: nat, negative: bool, radix: nat)

  /** The base a numeral without its sign is in, and its digits. */
  function SplitRadix(digits: string): (nat, string)
  {
    if |digits| < 2 || digits[0] != '0' then (10, digits)
    else if digits[1] == 'b' || digits[1] == 'B' then (2, digits[2..])
    else if digits[1] == 'o' || digits[1] == 'O' then (8, digits[2..])
    else if digits[1] == 'x' || digits[1] == 'X' then (16, digits[2..])
    else (10, digits)
  }

  function ParseRadix(raw: string): Option<Literal>
  {
    var text := Trim(raw);
    var negative := text != [] && text[0] == '-';
    var digits := if negative || (text != [] && text[0] == '+') then text[1..] else text;
    var (radix, body) := SplitRadix(digits);
    if body == [] then None
    else
      var magnitude :- FromStrRadix(body, radix, TwoTo(128) - 1);
      Some(Literal(magnitude, negative, radix))
  }

  // -------------------------------------------------- values by declared type

  datatype Scalar = Boolean | Signed(width: nat) | Unsigned(width: nat)

  datatype ScalarValue = TruthValue(b: bool) | IntegerValue(n: int)

  predicate IsWidth(width: nat) { width == 8 || width == 16 || width == 32 || width == 64 || width == 128 }

  /** The least and greatest values, with the widest type's taken as the machine's own. */
  function SignedBounds(width: nat): (int, int)
    requires width > 0
  {
    if width >= 128 then (-TwoTo(127), TwoTo(127) - 1) else (-TwoTo(width - 1), TwoTo(width - 1) - 1)
  }

  function UnsignedMax(width: nat): int
  {
    if width >= 128 then TwoTo(128) - 1 else TwoTo(width) - 1
  }

  /** Conversion from the unsigned 128-bit type to the signed one: checked, and by bit pattern. */
  function CheckedI128(magnitude: nat): Option<int> { if magnitude < TwoTo(127) then Some(magnitude) else None }

  function WrappedI128(magnitude: nat): int { if magnitude < TwoTo(127) then magnitude else magnitude - TwoTo(128) }

  function SignedOf(l: Literal, width: nat): Option<int>
    requires width > 0
  {
    var (low, high) := SignedBounds(width);
    if l.negative then
      var value :- CheckedI128(l.magnitude);
      if -value >= low then Some(-value) else None
    else if l.radix != 10 && l.magnitude > high then
      if l.magnitude > UnsignedMax(width) then None
      else if width >= 128 then Some(WrappedI128(l.magnitude))
      else Some(WrappedI128(l.magnitude) - TwoTo(width))
    else
      var value :- CheckedI128(l.magnitude);
      if value <= high then Some(value) else None
  }

  function UnsignedOf(l: Literal, width: nat): Option<int>
  {
    if l.negative || l.magnitude > UnsignedMax(width) then None else Some(l.magnitude)
  }

  function TruthOf(text: string): Option<bool>
  {
    if text == "true" || text == "True" || text == "TRUE" || text == "1" then Some(true)
    else if text == "false" || text == "False" || text == "FALSE" || text == "0" then Some(false)
    else None
  }

  /** The value a scalar property's text has under its declared type. */
  function Value(scalar: Scalar, raw: string): Option<ScalarValue>
    requires !scalar.Boolean? ==> scalar.width > 0
  {
    var text := Trim(raw);
    match scalar
    case Boolean => (var b :- TruthOf(text); Some(TruthValue(b)))
    case Signed(width) => (var l :- ParseRadix(text); var n :- SignedOf(l, width); Some(IntegerValue(n)))
    case Unsigned(width) => (var l :- ParseRadix(text); var n :- UnsignedOf(l, width); Some(IntegerValue(n)))
  }

  /** Exactly which texts are truth values: each word in three spellings, and a digit, with white space around. */
  lemma {:induction false} TruthExactly(raw: string, b: bool)
    ensures Value(Boolean, raw) == Some(TruthValue(b)) <==>
      Trim(raw) in if b then ["true", "True", "TRUE", "1"] else ["false", "False", "FALSE", "0"]
  {
    hide Trim;
  }

  // -------------------------------------------------- spelling numerals

  datatype Sign = NoSign | Plus | Minus

  /** A numeral as the format spells one: digits in either case, leading zeros allowed. */
  datatype Numeral = Numeral(sign: Sign, base: Base, digits: string)

  datatype Base = Plain | Marked(mark: char)

  function Radix(base: Base): nat
  {
    match base
    case Plain => 10
    case Marked(mark) => if mark == 'b' || mark == 'B' then 2 else if mark == 'o' || mark == 'O' then 8 else 16
  }

  function SignText(sign: Sign): string { if sign.Plus? then "+" else if sign.Minus? then "-" else "" }

  function BaseText(base: Base): string { if base.Marked? then ['0', base.mark] else "" }

  function Spelled(n: Numeral): string { SignText(n.sign) + (BaseText(n.base) + n.digits) }

  /** The digits are digits of the base, at least one, and the base is one of the four. */
  predicate Legal(n: Numeral)
  {
    n.digits != [] && ParseDigits(n.digits, Radix(n.base)).Some?
    && (n.base.Marked? ==> n.base.mark in "bBoOxX")
  }

  function Magnitude(n: Numeral): nat
    requires Legal(n)
  {
    ParseDigits(n.digits, Radix(n.base)).value
  }

  lemma {:induction false} DigitIsNoMark(c: char)
    requires DigitValue(c).Some?
    ensures !IsWhiteSpace(c) && c != '+' && c != '-' && c != 'o' && c != 'O' && c != 'x' && c != 'X'
    ensures DigitValue(c).value < 10 ==> c != 'b' && c != 'B'
  {
  }

  /** Nothing surrounds a numeral that trimming could take. */
  lemma {:induction false} NumeralIsTight(n: Numeral)
    requires Legal(n)
    ensures Trim(Spelled(n)) == Spelled(n)
  {
    var text := Spelled(n);
    ParsedAreDigits(n.digits, Radix(n.base));
    DigitIsNoMark(n.digits[0]);
    DigitIsNoMark(n.digits[|n.digits| - 1]);
    assert text[|text| - 1] == n.digits[|n.digits| - 1];
    TrimmedAlready(text);
  }

  lemma {:induction false} RadixSplits(base: Base, digits: string)
    requires digits != [] && AllDigits(digits, Radix(base)) && (base.Marked? ==> base.mark in "bBoOxX")
    ensures SplitRadix(BaseText(base) + digits) == (Radix(base), digits)
    ensures (BaseText(base) + digits)[0] != '+' && (BaseText(base) + digits)[0] != '-'
  {
    DigitIsNoMark(digits[0]);
    if base.Plain? {
      assert BaseText(base) + digits == digits;
      if |digits| > 1 {
        DigitIsNoMark(digits[1]);
      }
    } else {
      assert (BaseText(base) + digits)[2..] == digits;
    }
  }

  /** Every legal numeral is read for what its sign, base and digits say, up to 128 bits. */
  lemma {:induction false} NumeralReads(n: Numeral)
    requires Legal(n)
    ensures ParseRadix(Spelled(n))
         == if Magnitude(n) < TwoTo(128) then Some(Literal(Magnitude(n), n.sign == Minus, Radix(n.base))) else None
  {
    var text, unsigned := Spelled(n), BaseText(n.base) + n.digits;
    NumeralIsTight(n);
    ParsedAreDigits(n.digits, Radix(n.base));
    RadixSplits(n.base, n.digits);
    DigitIsNoMark(n.digits[0]);
    assert n.sign.NoSign? ==> text == unsigned;
    assert !n.sign.NoSign? ==> text[1..] == unsigned;
  }

  // -------------------------------------------------- exactly which texts are literals

  /** A numeral as the code accepts one: the integer parser underneath lets one more plus sign through. */
  function Accepted(n: Numeral, plus: bool): string
  {
    SignText(n.sign) + (BaseText(n.base) + (PlusText(plus) + n.digits))
  }

  function PlusText(plus: bool): string { if plus then "+" else "" }

  /** The literal a numeral denotes, as far as 128 bits reach. */
  ghost predicate Says(n: Numeral, plus: bool, text: string, l: Literal)
  {
    Legal(n) && text == Accepted(n, plus)
    && Magnitude(n) < TwoTo(128) && l == Literal(Magnitude(n), n.sign == Minus, Radix(n.base))
  }

  lemma {:induction false} PlusSkipped(digits: string, plus: bool, radix: nat, max: nat)
    requires digits != [] && ParseDigits(digits, radix).Some?
    ensures FromStrRadix(PlusText(plus) + digits, radix, max)
         == var n := ParseDigits(digits, radix).value; if n <= max then Some(n) else None
  {
    ParsedAreDigits(digits, radix);
    DigitIsNoMark(digits[0]);
    assert (PlusText(plus) + digits)[|PlusText(plus)|..] == digits;
  }

  lemma {:induction false} BaseSplits(base: Base, plus: bool, digits: string)
    requires digits != [] && AllDigits(digits, Radix(base)) && (base.Marked? ==> base.mark in "bBoOxX")
    ensures SplitRadix(BaseText(base) + (PlusText(plus) + digits)) == (Radix(base), PlusText(plus) + digits)
  {
    if plus {
      var body := PlusText(plus) + digits;
      assert base.Plain? ==> BaseText(base) + body == body;
      assert base.Marked? ==> (BaseText(base) + body)[2..] == body;
    } else {
      assert PlusText(plus) + digits == digits;
      RadixSplits(base, digits);
    }
  }

  lemma {:induction false} AcceptedReads(raw: string, n: Numeral, plus: bool, l: Literal)
    requires Says(n, plus, Trim(raw), l)
    ensures ParseRadix(raw) == Some(l)
  {
    hide Trim;
    hide ParseDigits;
    var text, body := Trim(raw), PlusText(plus) + n.digits;
    var unsigned := BaseText(n.base) + body;
    ParsedAreDigits(n.digits, Radix(n.base));
    DigitIsNoMark(n.digits[0]);
    PlusSkipped(n.digits, plus, Radix(n.base), TwoTo(128) - 1);
    PlusSkipped(n.digits, false, Radix(n.base), TwoTo(128) - 1);
    assert PlusText(false) + n.digits == n.digits;
    BaseSplits(n.base, plus, n.digits);
    BaseSplits(n.base, false, n.digits);
    if n.sign.NoSign? {
      assert text == unsigned;
      if n.base.Plain? {
        assert unsigned == body;
        assert plus ==> body[1..] == n.digits;
        assert BaseText(Plain) + n.digits == n.digits;
      }
    } else {
      assert text[1..] == unsigned;
    }
  }

  /** Undoing the split into base and digits. */
  lemma {:induction false} BaseFound(digits: string) returns (base: Base)
    ensures base.Marked? ==> base.mark in "bBoOxX"
    ensures SplitRadix(digits).0 == Radix(base) && digits == BaseText(base) + SplitRadix(digits).1
  {
    if SplitRadix(digits) == (10, digits) {
      base := Plain;
      assert digits == "" + digits;
    } else {
      base := Marked(digits[1]);
      assert digits == [digits[0], digits[1]] + digits[2..];
    }
  }

  /** Undoing the integer parser: its digits, and whether it took a plus sign. */
  lemma {:induction false} DigitsFound(body: string, radix: nat, max: nat) returns (digits: string, plus: bool)
    requires FromStrRadix(body, radix, max).Some?
    ensures digits != [] && body == PlusText(plus) + digits
    ensures ParseDigits(digits, radix).Some? && ParseDigits(digits, radix) == FromStrRadix(body, radix, max)
    ensures ParseDigits(digits, radix).value <= max
  {
    hide ParseDigits;
    plus := |body| > 1 && body[0] == '+';
    digits := if plus then body[1..] else body;
  }

  /** Undoing the sign. */
  lemma {:induction false} SignFound(text: string) returns (sign: Sign, unsigned: string)
    ensures text == SignText(sign) + unsigned && (sign == Minus <==> text != [] && text[0] == '-')
    ensures unsigned == if text != [] && (text[0] == '-' || text[0] == '+') then text[1..] else text
  {
    sign := if text != [] && text[0] == '-' then Minus else if text != [] && text[0] == '+' then Plus else NoSign;
    unsigned := if sign.NoSign? then text else text[1..];
  }

  lemma {:induction false} ReadIsAccepted(raw: string, l: Literal) returns (n: Numeral, plus: bool)
    requires ParseRadix(raw) == Some(l)
    ensures Says(n, plus, Trim(raw), l)
  {
    hide Trim;
    hide ParseDigits;
    hide SplitRadix;
    hide FromStrRadix;
    hide TwoTo;
    hide BaseText;
    hide PlusText;
    hide SignText;
    var sign, unsigned := SignFound(Trim(raw));
    var base := BaseFound(unsigned);
    var digits;
    digits, plus := DigitsFound(SplitRadix(unsigned).1, Radix(base), TwoTo(128) - 1);
    n := Numeral(sign, base, digits);
  }

  /**
    Exactly which texts are read as literals, and as what: a sign, a base mark, digits of that base below
    2^128, with white space around them and one further plus sign before the digits or not.
   */
  lemma {:induction false} LiteralExactly(raw: string, l: Literal)
    ensures ParseRadix(raw) == Some(l) <==> exists n: Numeral, plus: bool :: Says(n, plus, Trim(raw), l)
  {
    hide Says;
    hide ParseRadix;
    if ParseRadix(raw) == Some(l) {
      var n, plus := ReadIsAccepted(raw, l);
    }
    forall n: Numeral, plus: bool | Says(n, plus, Trim(raw), l)
      ensures ParseRadix(raw) == Some(l)
    {
      AcceptedReads(raw, n, plus, l);
    }
  }

  // -------------------------------------------------- what each type makes of them

  lemma {:induction false} PowerDoubles(n: nat)
    requires n > 0
    ensures TwoTo(n) == 2 * TwoTo(n - 1)
  {
    assert Power(2, n) == 2 * Power(2, n - 1);
  }

  lemma {:induction false} PowerGrows(m: nat, n: nat)
    requires m <= n
    ensures 0 < TwoTo(m) <= TwoTo(n)
    decreases n
  {
    if m < n {
      PowerGrows(m, n - 1);
      PowerDoubles(n);
    }
  }

  /** The powers a width's bounds are made of, in order. */
  lemma {:induction false} Bounds(width: nat)
    requires 0 < width <= 128
    ensures SignedBounds(width) == (-TwoTo(width - 1), TwoTo(width - 1) - 1)
    ensures UnsignedMax(width) == TwoTo(width) - 1 && TwoTo(width) == 2 * TwoTo(width - 1)
    ensures 0 < TwoTo(width - 1) <= TwoTo(127) && TwoTo(width) <= TwoTo(128) && TwoTo(128) == 2 * TwoTo(127)
    ensures width < 128 ==> TwoTo(width) <= TwoTo(127)
  {
    PowerDoubles(width);
    PowerDoubles(128);
    PowerGrows(width - 1, 127);
    PowerGrows(width, 128);
    if width < 128 {
      PowerGrows(width, 127);
    }
  }

  predicate FitsSigned(n: int, width: nat)
    requires width > 0
  {
    -TwoTo(width - 1) <= n < TwoTo(width - 1)
  }

  /** The value of a bit pattern read as two's complement. */
  function TwosComplement(pattern: nat, width: nat): int
    requires width > 0
  {
    if pattern < TwoTo(width - 1) then pattern else pattern - TwoTo(width)
  }

  /** Two's complement reading is the one value in range that is congruent to the pattern. */
  lemma {:induction false} TwosComplementExactly(pattern: nat, width: nat, n: int)
    requires 0 < width <= 128 && pattern < TwoTo(width)
    ensures n == TwosComplement(pattern, width) <==> FitsSigned(n, width) && (n - pattern) % TwoTo(width) == 0
  {
    Bounds(width);
    if FitsSigned(n, width) || n == TwosComplement(pattern, width) {
      MultiplesNear(n - pattern, TwoTo(width));
    }
  }

  /** The multiples of `m` less than two steps from zero. */
  lemma {:induction false} MultiplesNear(d: int, m: int)
    requires m > 0 && -2 * m < d < m
    ensures d % m == 0 <==> d == 0 || d == -m
  {
    if d < -m {
      RemainderIs(d, m, -2, d + 2 * m);
    } else if d < 0 {
      RemainderIs(d, m, -1, d + m);
    } else {
      RemainderIs(d, m, 0, d);
    }
  }

  lemma {:induction false} RemainderIs(d: int, m: int, q: int, r: int)
    requires 0 <= r < m && d == m * q + r
    ensures d % m == r
  {
    var e := d / m - q;
    assert m * e == r - d % m;
    assert e >= 1 ==> m * e >= m;
    assert e <= -1 ==> m * e <= -m;
  }

  /** What a signed type makes of a literal, in full. */
  lemma {:induction false} SignedExactly(l: Literal, width: nat)
    requires 0 < width <= 128
    ensures SignedOf(l, width) ==
      if l.negative then
        if l.magnitude <= TwoTo(width - 1) && l.magnitude < TwoTo(127) then Some(-(l.magnitude as int)) else None
      else if l.radix == 10 then if l.magnitude < TwoTo(width - 1) then Some(l.magnitude as int) else None
      else if l.magnitude < TwoTo(width) then Some(TwosComplement(l.magnitude, width)) else None
  {
    Bounds(width);
  }

  /** Whatever the text, a signed type yields only values in its range, and an unsigned one in its own. */
  lemma {:induction false} ValuesInRange(scalar: Scalar, raw: string)
    requires !scalar.Boolean? ==> 0 < scalar.width <= 128
    ensures Value(scalar, raw).Some? ==>
      match scalar
      case Boolean => Value(scalar, raw).value.TruthValue?
      case Signed(width) => Value(scalar, raw).value.IntegerValue? && FitsSigned(Value(scalar, raw).value.n, width)
      case Unsigned(width) => Value(scalar, raw).value.IntegerValue? && 0 <= Value(scalar, raw).value.n < TwoTo(width)
  {
    if !scalar.Boolean? {
      Bounds(scalar.width);
      var l := ParseRadix(Trim(raw));
      if l.Some? {
        SignedExactly(l.value, scalar.width);
      }
    }
  }

  /** A radix literal without a minus sign reads as the in-range value its bits denote, or not at all. */
  lemma {:induction false} RadixLiteralReads(n: Numeral, width: nat)
    requires Legal(n) && n.base.Marked? && n.sign != Minus && 0 < width <= 128
    ensures Value(Signed(width), Spelled(n))
         == if Magnitude(n) < TwoTo(width) then Some(IntegerValue(TwosComplement(Magnitude(n), width))) else None
    ensures Value(Unsigned(width), Spelled(n))
         == if Magnitude(n) < TwoTo(width) then Some(IntegerValue(Magnitude(n))) else None
  {
    NumeralIsTight(n);
    NumeralReads(n);
    Bounds(width);
    SignedExactly(Literal(Magnitude(n), false, Radix(n.base)), width);
  }

  /** The number a decimal numeral denotes. */
  function Denoted(n: Numeral): int
    requires Legal(n)
  {
    if n.sign == Minus then -(Magnitude(n) as int) else Magnitude(n)
  }

  /**
    A decimal numeral reads as its number exactly when that is in range. The one exception is the
    least number of the widest type, whose magnitude is refused before its sign is applied.
   */
  lemma {:induction false} DecimalReadsExactly(n: Numeral, width: nat)
    requires Legal(n) && n.base == Plain && 0 < width <= 128
    ensures Value(Signed(width), Spelled(n))
         == if FitsSigned(Denoted(n), width) && Denoted(n) != -TwoTo(127) then Some(IntegerValue(Denoted(n))) else None
    ensures Value(Unsigned(width), Spelled(n))
         == if n.sign != Minus && Magnitude(n) < TwoTo(width) then Some(IntegerValue(Magnitude(n))) else None
  {
    NumeralIsTight(n);
    NumeralReads(n);
    DecimalOf(Magnitude(n), n.sign == Minus, width);
  }

  lemma {:induction false} DecimalOf(magnitude: nat, negative: bool, width: nat)
    requires 0 < width <= 128
    ensures magnitude >= TwoTo(128) ==> !FitsSigned(if negative then -(magnitude as int) else magnitude, width)
    ensures SignedOf(Literal(magnitude, negative, 10), width)
         == var n := if negative then -(magnitude as int) else magnitude;
            if FitsSigned(n, width) && n != -TwoTo(127) then Some(n) else None
    ensures UnsignedOf(Literal(magnitude, negative, 10), width)
         == if !negative && magnitude < TwoTo(width) then Some(magnitude as int) else None
    ensures magnitude >= TwoTo(128) ==> magnitude >= TwoTo(width)
  {
    Bounds(width);
    SignedExactly(Literal(magnitude, negative, 10), width);
  }

  // -------------------------------------------------- what the writer spells

  /** A whole number in decimal, with a minus sign if it is negative. */
  function IntegerText(n: int): string { if n < 0 then "-" + Decimal(-n) else Decimal(n) }

  lemma {:induction false} IntegerIsNumeral(n: int) returns (numeral: Numeral)
    ensures Legal(numeral) && numeral.base == Plain && numeral.sign == (if n < 0 then Minus else NoSign)
    ensures Spelled(numeral) == IntegerText(n) && Denoted(numeral) == n
  {
    var magnitude: nat := if n < 0 then -n else n;
    ParsePrinted(magnitude, 10);
    numeral := Numeral(if n < 0 then Minus else NoSign, Plain, Decimal(magnitude));
    assert BaseText(Plain) + Decimal(magnitude) == Decimal(magnitude);
    assert n >= 0 ==> "" + Decimal(magnitude) == Decimal(magnitude);
  }

  /** A scalar property the writer can write, floating point aside. */
  datatype ScalarProperty =
    | BooleanProperty(b: bool)
    | SignedProperty(width: nat, n: int)
    | UnsignedProperty(width: nat, m: nat)

  predicate IsProperty(p: ScalarProperty)
  {
    match p
    case BooleanProperty(_) => true
    case SignedProperty(width, n) => IsWidth(width) && width < 128 && FitsSigned(n, width)
    case UnsignedProperty(width, m) => IsWidth(width) && width < 128 && m < TwoTo(width)
  }

  /** The declared type and the text of a property. */
  function Serialized(p: ScalarProperty): (Scalar, string)
  {
    match p
    case BooleanProperty(b) => (Boolean, if b then "true" else "false")
    case SignedProperty(width, n) => (Signed(width), IntegerText(n))
    case UnsignedProperty(width, m) => (Unsigned(width), Decimal(m))
  }

  function ValueOf(p: ScalarProperty): ScalarValue
  {
    match p
    case BooleanProperty(b) => TruthValue(b)
    case SignedProperty(_, n) => IntegerValue(n)
    case UnsignedProperty(_, m) => IntegerValue(m)
  }

  /** Every property written as text reads back as itself. */
  lemma {:induction false} SerializedReadsBack(p: ScalarProperty)
    requires IsProperty(p)
    ensures Value(Serialized(p).0, Serialized(p).1) == Some(ValueOf(p))
  {
    match p {
      case BooleanProperty(b) => TrimmedAlready(Serialized(p).1);
      case SignedProperty(width, n) => SignedReadsBack(width, n);
      case UnsignedProperty(width, m) =>
        var numeral := IntegerIsNumeral(m);
        DecimalReadsExactly(numeral, width);
    }
  }

  lemma {:induction false} SignedReadsBack(width: nat, n: int)
    requires 0 < width < 128 && FitsSigned(n, width)
    ensures Value(Signed(width), IntegerText(n)) == Some(IntegerValue(n))
  {
    var numeral := IntegerIsNumeral(n);
    LeastIsWidest(n, width);
    DecimalReadsExactly(numeral, width);
  }

  lemma {:induction false} LeastIsWidest(n: int, width: nat)
    requires 0 < width < 128 && FitsSigned(n, width)
    ensures n != -TwoTo(127)
  {
    Bounds(width);
  }

  /** The number at which the widest signed type's decimal reading fails, and its neighbour, which it reads. */
  lemma {:induction false} LeastOfTheWidest()
    ensures Value(Signed(128), IntegerText(-TwoTo(127))) == None
    ensures Value(Signed(128), IntegerText(1 - TwoTo(127))) == Some(IntegerValue(1 - TwoTo(127)))
  {
    Bounds(128);
    var least := IntegerIsNumeral(-TwoTo(127));
    var next := IntegerIsNumeral(1 - TwoTo(127));
    DecimalReadsExactly(least, 128);
    DecimalReadsExactly(next, 128);
  }

  /** A property survives the header: its text is written as an attribute, read back and decoded by type. */
  lemma {:induction false} PropertySurvives(p: ScalarProperty)
    requires IsProperty(p)
    ensures var read := AttributeValue(Escaped(Serialized(p).1, true));
      read.Some? && Value(Serialized(p).0, read.value) == Some(ValueOf(p))
  {
    SerializedReadsBack(p);
    SerializedIsPlain(p);
    AttributeSurvivesExactly(Serialized(p).1);
  }

  lemma {:induction false} SerializedIsPlain(p: ScalarProperty)
    ensures !HasFoldedChar(Serialized(p).1)
  {
    if !p.BooleanProperty? {
      var magnitude: nat := if p.UnsignedProperty? then p.m else if p.n < 0 then -p.n else p.n;
      DigitsAreDigits(magnitude, 10);
      DigitRunIsPlain(Decimal(magnitude));
    }
  }

  lemma {:induction false} DigitRunIsPlain(s: string)
    requires AllDigits(s, 10)
    ensures !HasFoldedChar(s)
  {
  }

  // -------------------------------------------------- the specification's own example

  lemma {:induction false} PowersOfTwo()
    ensures TwoTo(31) == 0x8000_0000 && TwoTo(32) == 0x1_0000_0000
  {
    Doublings(0, 8);
    Doublings(8, 8);
    Doublings(16, 8);
    Doublings(24, 7);
    PowerDoubles(32);
  }

  /** Up to eight doublings at once. */
  lemma {:induction false} Doublings(n: nat, k: nat)
    requires k == 7 || k == 8
    ensures TwoTo(n + k) == (if k == 7 then 128 else 256) * TwoTo(n)
  {
    PowerDoubles(n + 1);
    PowerDoubles(n + 2);
    PowerDoubles(n + 3);
    PowerDoubles(n + 4);
    PowerDoubles(n + 5);
    PowerDoubles(n + 6);
    PowerDoubles(n + 7);
    if k == 8 {
      PowerDoubles(n + 8);
    }
  }

  const EXAMPLE := Numeral(NoSign, Marked('x'), "80E950AB")

  lemma {:induction false} ExampleMagnitude()
    ensures Legal(EXAMPLE) && Magnitude(EXAMPLE) == 2_162_774_187
  {
    NextDigit("", '8', "8", 0);
    NextDigit("8", '0', "80", 8);
    NextDigit("80", 'E', "80E", 0x80);
    NextDigit("80E", '9', "80E9", 0x80E);
    NextDigit("80E9", '5', "80E95", 0x80E9);
    NextDigit("80E95", '0', "80E950", 0x8_0E95);
    NextDigit("80E950", 'A', "80E950A", 0x80_E950);
    NextDigit("80E950A", 'B', "80E950AB", 0x80E_950A);
  }

  lemma {:induction false} NextDigit(head: string, c: char, whole: string, value: nat)
    requires whole == head + [c] && ParseDigits(head, 16) == Some(value)
    requires DigitValue(c).Some? && DigitValue(c).value < 16
    ensures ParseDigits(whole, 16) == Some(value * 16 + DigitValue(c).value)
  {
    ParseSnoc(head, c, 16);
  }

  /** The same thirty-two bits under three types. */
  lemma {:induction false} ExampleReads()
    ensures Value(Signed(32), "0x80E950AB") == Some(IntegerValue(-2_132_193_109))
    ensures Value(Unsigned(32), "0x80E950AB") == Some(IntegerValue(2_162_774_187))
    ensures Value(Signed(16), "0x80E950AB") == None
  {
    ExampleMagnitude();
    PowersOfTwo();
    PowerGrows(16, 31);
    assert Spelled(EXAMPLE) == "0x80E950AB";
    RadixLiteralReads(EXAMPLE, 32);
    RadixLiteralReads(EXAMPLE, 16);
  }
}
