/** Escaping text for the header, and what an XML reader makes of it. */
module XmlText {
  import opened Primitives
  import opened Text

  // -------------------------------------------------- writing

  function EscapedChar(c: char, quotes: bool): string
  {
    if c == '&' then "&amp;"
    else if c == '<' then "&lt;"
    else if c == '>' then "&gt;"
    else if c == '"' && quotes then "&quot;"
    else if c == '\'' && quotes then "&apos;"
    else [c]
  }

  function Escaped(text: string, quotes: bool): string
  {
    if text == [] then [] else EscapedChar(text[0], quotes) + Escaped(text[1..], quotes)
  }

  lemma {:induction false} EscapedConcat(a: string, b: string, quotes: bool)
    ensures Escaped(a + b, quotes) == Escaped(a, quotes) + Escaped(b, quotes)
  {
    if a == [] {
      assert a + b == b;
    } else {
      assert (a + b)[1..] == a[1..] + b;
      EscapedConcat(a[1..], b, quotes);
    }
  }

  method EscapeAttr(text: string) returns (out: string)
    ensures out == Escaped(text, true)
  {
    out := [];
    for i := 0 to |text|
      invariant out == Escaped(text[..i], true)
    {
      var c := text[i];
      EscapedConcat(text[..i], [c], true);
      assert text[..i + 1] == text[..i] + [c];
      assert Escaped([c], true) == EscapedChar(c, true) + Escaped([], true);
      match c {
        case '&' => out := out + "&amp;";
        case '<' => out := out + "&lt;";
        case '>' => out := out + "&gt;";
        case '"' => out := out + "&quot;";
        case '\'' => out := out + "&apos;";
        case _ => out := out + [c];
      }
    }
    assert text[..|text|] == text;
  }

  method EscapeText(text: string) returns (out: string)
    ensures out == Escaped(text, false)
  {
    out := [];
    for i := 0 to |text|
      invariant out == Escaped(text[..i], false)
    {
      var c := text[i];
      EscapedConcat(text[..i], [c], false);
      assert text[..i + 1] == text[..i] + [c];
      assert Escaped([c], false) == EscapedChar(c, false) + Escaped([], false);
      match c {
        case '&' => out := out + "&amp;";
        case '<' => out := out + "&lt;";
        case '>' => out := out + "&gt;";
        case _ => out := out + [c];
      }
    }
    assert text[..|text|] == text;
  }

  // -------------------------------------------------- reading

  predicate IsScalarValue(code: nat)
  {
    code < 0xD800 || 0xE000 <= code < 0x11_0000
  }

  /** The five entities known without a declaration, and numeric references to anything but U+0000. */
  function ResolveEntity(name: string): Option<string>
  {
    match name
    case "amp" => Some("&")
    case "lt" => Some("<")
    case "gt" => Some(">")
    case "quot" => Some("\"")
    case "apos" => Some("'")
    case _ =>
      var digits :- StripPrefix(name, "#");
      CharacterNumbered(digits)
  }

  function CharacterNumbered(digits: string): Option<string>
  {
    var code :-
      if digits != [] && (digits[0] == 'x' || digits[0] == 'X')
      then FromStrRadix(digits[1..], 16, U32_LIMIT - 1)
      else FromStrRadix(digits, 10, U32_LIMIT - 1);
    if code != 0 && IsScalarValue(code) then Some([code as char]) else None
  }

  /** A number in a base, in digits of either case, perhaps with a plus sign and leading zeros. */
  ghost predicate IsNumeral(text: string, radix: nat, n: nat)
  {
    exists digits :: digits != "" && (text == digits || text == "+" + digits) && ParseDigits(digits, radix) == Some(n)
  }

  lemma {:induction false} NumeralExactly(text: string, radix: nat, max: nat, n: nat)
    ensures FromStrRadix(text, radix, max) == Some(n) <==> IsNumeral(text, radix, n) && n <= max
  {
    var digits := if |text| > 1 && text[0] == '+' then text[1..] else text;
    assert |text| > 1 && text[0] == '+' ==> text == "+" + digits;
    forall other | other != "" && (text == other || text == "+" + other) && ParseDigits(other, radix) == Some(n)
      ensures other == digits
    {
      ParsedAreDigits(other, radix);
      assert DigitValue('+') == None;
      assert text == "+" + other ==> text[1..] == other;
    }
  }

  /** A numeric character reference without its number sign: decimal, or hexadecimal after an x. */
  ghost predicate NamesCode(digits: string, code: nat)
  {
    if digits != "" && (digits[0] == 'x' || digits[0] == 'X') then IsNumeral(digits[1..], 16, code)
    else IsNumeral(digits, 10, code)
  }

  /**
    Exactly which references have a meaning, and which: the five entities that XML predefines, and the number of
    any character but U+0000.
   */
  lemma {:induction false} EntityExactly(name: string, text: string)
    ensures ResolveEntity(name) == Some(text) <==>
      (name == "amp" && text == "&") || (name == "lt" && text == "<") || (name == "gt" && text == ">")
      || (name == "quot" && text == ['"']) || (name == "apos" && text == ['\''])
      || (name != "" && name[0] == '#' && |text| == 1 && text[0] as int != 0 && NamesCode(name[1..], text[0] as int))
  {
    hide CharacterNumbered;
    hide NamesCode;
    if name != "" && name[0] == '#' {
      assert name[..1] == "#";
      NumberedExactly(name[1..], text);
    } else {
      assert StripPrefix(name, "#") == None;
    }
  }

  lemma {:induction false} NumberedExactly(digits: string, text: string)
    ensures CharacterNumbered(digits) == Some(text) <==>
      |text| == 1 && text[0] as int != 0 && NamesCode(digits, text[0] as int)
  {
    hide FromStrRadix;
    hide IsNumeral;
    var hex := digits != "" && (digits[0] == 'x' || digits[0] == 'X');
    var body, radix := if hex then digits[1..] else digits, if hex then 16 else 10;
    var code := FromStrRadix(body, radix, U32_LIMIT - 1);
    if code.Some? {
      NumeralExactly(body, radix, U32_LIMIT - 1, code.value);
    }
    if |text| == 1 {
      var c: char := text[0];
      assert text == [c] && IsScalarValue(c as int);
      NumeralExactly(body, radix, U32_LIMIT - 1, c as int);
    }
  }

  /** Every character but U+0000 can be referred to by its number, in decimal and in hexadecimal. */
  lemma {:induction false} CharacterReferenceReads(c: char)
    requires c as int != 0
    ensures ResolveEntity("#" + Decimal(c as int)) == Some([c])
    ensures ResolveEntity("#x" + Digits(c as int, 16)) == Some([c])
  {
    var code := c as int;
    var decimal, hex := "#" + Decimal(code), "#x" + Digits(code, 16);
    assert decimal[1..] == Decimal(code) && hex[1..][1..] == Digits(code, 16);
    PrintedIsNumeral(code, 10);
    PrintedIsNumeral(code, 16);
    EntityExactly(decimal, [c]);
    EntityExactly(hex, [c]);
  }

  lemma {:induction false} PrintedIsNumeral(n: nat, radix: nat)
    requires 2 <= radix <= 16
    ensures IsNumeral(Digits(n, radix), radix, n)
    ensures Digits(n, radix)[0] != 'x' && Digits(n, radix)[0] != 'X'
  {
    ParsePrinted(n, radix);
    DigitsAreDigits(n, radix);
    assert DigitValue('x') == None && DigitValue('X') == None;
  }

  /** Replace the references in a run of character data; a bare `<` or an unfinished reference has no reading. */
  function ReadReferences(raw: string): Option<string>
    decreases |raw|
  {
    if raw == [] then Some([])
    else if raw[0] == '<' then None
    else if raw[0] == '&' then
      var end := IndexOf(raw[1..], ';');
      if end == |raw| - 1 then None
      else
        var text :- ResolveEntity(raw[1..][..end]);
        var rest :- ReadReferences(raw[end + 2..]);
        Some(text + rest)
    else
      var rest :- ReadReferences(raw[1..]);
      Some([raw[0]] + rest)
  }

  /**
    Attribute-value normalization as XML 1.0 section 3.3.3 gives it after section 2.11: each tab and
    each line end written literally reads as one space.
   */
  function Folded(raw: string): string
  {
    if raw == [] then []
    else if raw[0] == '\r' && |raw| > 1 && raw[1] == '\n' then " " + Folded(raw[2..])
    else if raw[0] == '\t' || raw[0] == '\r' || raw[0] == '\n' then " " + Folded(raw[1..])
    else [raw[0]] + Folded(raw[1..])
  }

  /** Each line end, in any of its three spellings, as one line feed. */
  function LineEnds(raw: string): string
  {
    if raw == [] then []
    else if raw[0] == '\r' then ['\n'] + LineEnds(if |raw| > 1 && raw[1] == '\n' then raw[2..] else raw[1..])
    else [raw[0]] + LineEnds(raw[1..])
  }

  /** Each tab and line feed as a space. */
  function Spaced(text: string): (spaced: string)
    ensures |spaced| == |text|
    ensures forall i :: 0 <= i < |text| ==> spaced[i] == if text[i] == '\t' || text[i] == '\n' then ' ' else text[i]
  {
    seq(|text|, i requires 0 <= i < |text| => if text[i] == '\t' || text[i] == '\n' then ' ' else text[i])
  }

  /** The one pass is the two of the standard, line ends first. */
  lemma {:induction false} FoldedIsTwoPasses(raw: string)
    ensures Folded(raw) == Spaced(LineEnds(raw))
  {
    if raw != [] {
      var rest := if raw[0] == '\r' && |raw| > 1 && raw[1] == '\n' then raw[2..] else raw[1..];
      FoldedIsTwoPasses(rest);
      assert Spaced([LineEnds(raw)[0]] + LineEnds(rest)) == [Spaced(LineEnds(raw))[0]] + Spaced(LineEnds(rest));
    }
  }

  function AttributeValue(raw: string): Option<string>
  {
    ReadReferences(Folded(raw))
  }

  predicate HasFoldedChar(text: string)
  {
    '\t' in text || '\r' in text || '\n' in text
  }

  // -------------------------------------------------- the round trips

  lemma {:induction false} EntityReads(c: char, quotes: bool, rest: string)
    ensures ReadReferences(EscapedChar(c, quotes) + rest)
         == var tail :- ReadReferences(rest); Some([c] + tail)
  {
    hide ReadReferences;
    hide ResolveEntity;
    if EscapedChar(c, quotes) == [c] {
      OneReads(c, rest);
    } else {
      var name := EntityNamed(c);
      ReferenceReads(name, c, rest);
    }
  }

  lemma {:induction false} EntityNamed(c: char) returns (name: string)
    requires c in "&<>\"'"
    ensures ';' !in name && ResolveEntity(name) == Some([c])
    ensures forall quotes :: EscapedChar(c, quotes) == [c] || EscapedChar(c, quotes) == "&" + name + [';']
  {
    name := if c == '&' then "amp" else if c == '<' then "lt" else if c == '>' then "gt"
            else if c == '"' then "quot" else "apos";
  }

  lemma {:induction false} OneReads(c: char, rest: string)
    requires c != '&' && c != '<'
    ensures ReadReferences([c] + rest) == var tail :- ReadReferences(rest); Some([c] + tail)
  {
    assert ([c] + rest)[1..] == rest;
  }

  lemma {:induction false} ReferenceReads(name: string, c: char, rest: string)
    requires ';' !in name && ResolveEntity(name) == Some([c])
    ensures ReadReferences(("&" + name + [';']) + rest) == var tail :- ReadReferences(rest); Some([c] + tail)
  {
    hide ResolveEntity;
    var raw := ("&" + name + [';']) + rest;
    assert raw[1..] == name + [';'] + rest;
    IndexOfUnique(name, ';', rest);
    assert raw[1..][..|name|] == name;
    assert raw[|name| + 2..] == rest;
  }

  /** Character data survives escaping and reading, whatever it contains. */
  lemma {:induction false} TextSurvives(text: string, quotes: bool)
    ensures ReadReferences(Escaped(text, quotes)) == Some(text)
  {
    if text != [] {
      TextSurvives(text[1..], quotes);
      EntityReads(text[0], quotes, Escaped(text[1..], quotes));
      assert text == [text[0]] + text[1..];
    }
  }

  /** A run of characters that a reader takes as they stand. */
  predicate PlainText(text: string)
  {
    forall i :: 0 <= i < |text| ==>
      text[i] != '&' && text[i] != '<' && text[i] != '\t' && text[i] != '\r' && text[i] != '\n'
  }

  lemma {:induction false} PlainThen(plain: string, rest: string)
    requires PlainText(plain)
    ensures ReadReferences(plain + rest) == var tail :- ReadReferences(rest); Some(plain + tail)
  {
    var tail := ReadReferences(rest);
    if plain == [] {
      assert plain + rest == rest;
      assert tail.Some? ==> plain + tail.value == tail.value;
    } else {
      assert (plain + rest)[1..] == plain[1..] + rest;
      PlainThen(plain[1..], rest);
      assert tail.Some? ==> [plain[0]] + (plain[1..] + tail.value) == plain + tail.value;
    }
  }

  lemma {:induction false} PlainReads(plain: string)
    requires PlainText(plain)
    ensures ReadReferences(plain) == Some(plain)
  {
    PlainThen(plain, []);
    assert plain + [] == plain;
  }

  lemma {:induction false} EscapedReads(text: string, quotes: bool, rest: string)
    ensures ReadReferences(Escaped(text, quotes) + rest) == var tail :- ReadReferences(rest); Some(text + tail)
  {
    var tail := ReadReferences(rest);
    if text == [] {
      assert Escaped(text, quotes) + rest == rest;
      assert tail.Some? ==> text + tail.value == tail.value;
    } else {
      var later := Escaped(text[1..], quotes) + rest;
      EscapedReads(text[1..], quotes, rest);
      assert Escaped(text, quotes) + rest == EscapedChar(text[0], quotes) + later;
      EntityReads(text[0], quotes, later);
      ConsAppend(text, tail);
    }
  }

  lemma {:induction false} ConsAppend(text: string, tail: Option<string>)
    requires text != []
    ensures tail.Some? ==> [text[0]] + (text[1..] + tail.value) == text + tail.value
  {
  }

  lemma {:induction false} FoldedBeforePlain(raw: string, plain: string)
    requires !HasFoldedChar(plain)
    ensures Folded(raw + plain) == Folded(raw) + plain
    decreases |raw|
  {
    assert Folded([]) == [];
    hide Folded;
    hide HasFoldedChar;
    if raw == [] {
      FoldedPlain(plain, []);
      assert raw + plain == plain + [] == plain;
    } else if raw[0] == '\r' && |raw| > 1 && raw[1] == '\n' {
      FoldedBeforePlain(raw[2..], plain);
      assert raw == "\r\n" + raw[2..];
      LineEndBeforePlain(raw[2..], plain);
    } else {
      FoldedBeforePlain(raw[1..], plain);
      assert raw == [raw[0]] + raw[1..];
      assert raw + plain == [raw[0]] + (raw[1..] + plain);
      if raw[0] == '\r' {
        NoLineFeedLeads(raw[1..], plain);
      }
      OneBeforePlain(raw[0], raw[1..], plain);
    }
  }

  lemma {:induction false} LineEndBeforePlain(tail: string, plain: string)
    requires Folded(tail + plain) == Folded(tail) + plain
    ensures Folded(("\r\n" + tail) + plain) == Folded("\r\n" + tail) + plain
  {
    hide Folded;
    FoldedLineEnd(tail);
    FoldedLineEnd(tail + plain);
    assert ("\r\n" + tail) + plain == "\r\n" + (tail + plain);
  }

  lemma {:induction false} OneBeforePlain(c: char, tail: string, plain: string)
    requires c == '\r' ==> (tail == [] || tail[0] != '\n') && (tail + plain == [] || (tail + plain)[0] != '\n')
    requires Folded(tail + plain) == Folded(tail) + plain
    ensures Folded([c] + (tail + plain)) == Folded([c] + tail) + plain
  {
    FoldedOne(c, tail);
    FoldedOne(c, tail + plain);
  }

  lemma {:induction false} NoLineFeedLeads(tail: string, plain: string)
    requires !HasFoldedChar(plain) && (tail == [] || tail[0] != '\n')
    ensures tail + plain == [] || (tail + plain)[0] != '\n'
  {
  }

  /** One character by itself is folded to a space or kept. */
  lemma {:induction false} FoldedOne(c: char, rest: string)
    requires c == '\r' ==> rest == [] || rest[0] != '\n'
    ensures Folded([c] + rest) == [if c == '\t' || c == '\r' || c == '\n' then ' ' else c] + Folded(rest)
  {
    if c == '\t' || c == '\r' || c == '\n' {
      FoldedSpace(c, rest);
    } else {
      FoldedHead(c, rest);
    }
  }

  lemma {:induction false} FoldedHead(c: char, rest: string)
    requires c != '\t' && c != '\r' && c != '\n'
    ensures Folded([c] + rest) == [c] + Folded(rest)
  {
    assert ([c] + rest)[1..] == rest;
  }

  lemma {:induction false} FoldedPlain(plain: string, rest: string)
    requires !HasFoldedChar(plain)
    ensures Folded(plain + rest) == plain + Folded(rest)
  {
    hide Folded;
    if plain == [] {
      assert plain + rest == rest;
    } else {
      FoldedPlain(plain[1..], rest);
      FoldedHead(plain[0], plain[1..] + rest);
      assert plain + rest == [plain[0]] + (plain[1..] + rest);
      assert plain == [plain[0]] + plain[1..];
    }
  }

  /** Folding commutes with escaping, because no escape contains a folded character. */
  lemma {:induction false} FoldedEscaped(text: string)
    ensures Folded(Escaped(text, true)) == Escaped(Folded(text), true)
    decreases |text|
  {
    if text == [] {
    } else if text[0] == '\r' && |text| > 1 && text[1] == '\n' {
      FoldedEscaped(text[2..]);
      LineEndFolds(text[2..]);
      assert text == "\r\n" + text[2..];
    } else {
      FoldedEscaped(text[1..]);
      if text[0] == '\t' || text[0] == '\r' || text[0] == '\n' {
        SpaceFolds(text[0], text[1..]);
      } else {
        OtherFolds(text[0], text[1..]);
      }
      assert text == [text[0]] + text[1..];
    }
  }

  lemma {:induction false} PlainEscaped(c: char, rest: string)
    requires c == ' ' || c == '\t' || c == '\r' || c == '\n'
    ensures Escaped([c] + rest, true) == [c] + Escaped(rest, true)
  {
    assert ([c] + rest)[1..] == rest;
  }

  lemma {:induction false} FoldedSpace(c: char, rest: string)
    requires c == '\t' || c == '\r' || c == '\n'
    requires !(c == '\r' && rest != [] && rest[0] == '\n')
    ensures Folded([c] + rest) == " " + Folded(rest)
  {
    assert ([c] + rest)[1..] == rest;
  }

  lemma {:induction false} FoldedLineEnd(rest: string)
    ensures Folded("\r\n" + rest) == " " + Folded(rest)
  {
    assert ("\r\n" + rest)[2..] == rest;
  }

  lemma {:induction false} LineEndFolds(rest: string)
    requires Folded(Escaped(rest, true)) == Escaped(Folded(rest), true)
    ensures Folded(Escaped("\r\n" + rest, true)) == Escaped(Folded("\r\n" + rest), true)
  {
    assert "\r\n" + rest == "\r" + ("\n" + rest);
    PlainEscaped('\r', "\n" + rest);
    PlainEscaped('\n', rest);
    assert "\r" + ("\n" + Escaped(rest, true)) == "\r\n" + Escaped(rest, true);
    FoldedLineEnd(rest);
    FoldedLineEnd(Escaped(rest, true));
    PlainEscaped(' ', Folded(rest));
  }

  lemma {:induction false} SpaceFolds(c: char, rest: string)
    requires c == '\t' || c == '\r' || c == '\n'
    requires !(c == '\r' && rest != [] && rest[0] == '\n')
    requires Folded(Escaped(rest, true)) == Escaped(Folded(rest), true)
    ensures Folded(Escaped([c] + rest, true)) == Escaped(Folded([c] + rest), true)
  {
    FirstEscaped(rest);
    PlainEscaped(c, rest);
    FoldedSpace(c, rest);
    FoldedSpace(c, Escaped(rest, true));
    PlainEscaped(' ', Folded(rest));
  }

  lemma {:induction false} OtherFolds(c: char, rest: string)
    requires c != '\t' && c != '\r' && c != '\n'
    requires Folded(Escaped(rest, true)) == Escaped(Folded(rest), true)
    ensures Folded(Escaped([c] + rest, true)) == Escaped(Folded([c] + rest), true)
  {
    hide Folded;
    hide EscapedChar;
    FoldedHead(c, rest);
    FirstIsEscaped(c, rest);
    FirstIsEscaped(c, Folded(rest));
    EscapeUnfolded(c);
    FoldedPlain(EscapedChar(c, true), Escaped(rest, true));
  }

  lemma {:induction false} FirstIsEscaped(c: char, rest: string)
    ensures Escaped([c] + rest, true) == EscapedChar(c, true) + Escaped(rest, true)
  {
    assert ([c] + rest)[1..] == rest;
  }

  lemma {:induction false} EscapeUnfolded(c: char)
    requires c != '\t' && c != '\r' && c != '\n'
    ensures !HasFoldedChar(EscapedChar(c, true))
  {
  }

  lemma {:induction false} FirstEscaped(text: string)
    ensures Escaped(text, true) != [] && Escaped(text, true)[0] == '\n' ==> text != [] && text[0] == '\n'
  {
  }

  /** An attribute value reads back folded, so unchanged exactly when it has no tab and no line end. */
  lemma {:induction false} AttributeSurvivesExactly(text: string)
    ensures AttributeValue(Escaped(text, true)) == Some(Folded(text))
    ensures AttributeValue(Escaped(text, true)) == Some(text) <==> !HasFoldedChar(text)
  {
    FoldedEscaped(text);
    TextSurvives(Folded(text), true);
    FoldedFixed(text);
  }

  lemma {:induction false} FoldedFixed(text: string)
    ensures Folded(text) == text <==> !HasFoldedChar(text)
    ensures |Folded(text)| <= |text|
    decreases |text|
  {
    if text != [] {
      assert text == [text[0]] + text[1..];
      FoldedFixed(text[1..]);
      if |text| > 1 {
        FoldedFixed(text[2..]);
      }
    }
  }

  /** An escaped attribute holds neither a quote that would end it nor a `<`. */
  lemma {:induction false} EscapedIsQuotable(text: string)
    ensures '"' !in Escaped(text, true) && '\'' !in Escaped(text, true)
    ensures '<' !in Escaped(text, true) && '>' !in Escaped(text, true)
  {
    if text != [] {
      hide EscapedChar;
      EscapedIsQuotable(text[1..]);
      EscapeIsQuotable(text[0]);
    }
  }

  lemma {:induction false} EscapeIsQuotable(c: char)
    ensures var out := EscapedChar(c, true); '"' !in out && '\'' !in out && '<' !in out && '>' !in out
  {
  }
}
