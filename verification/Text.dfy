/** Numerals and the string operations the attribute grammars are built from. */
module Text {
  import opened Primitives

  // ---------------------------------------------------------------- numerals

  /** The digit character of a value below sixteen, lower case. */
  function DigitChar(d: nat): (c: char)
    requires d < 16
  {
    if d < 10 then '0' + d as char else 'a' + (d - 10) as char
  }

  /** The value of a digit character in either case, whatever the radix. */
  function DigitValue(c: char): Option<nat>
  {
    if '0' <= c <= '9' then Some((c - '0') as int)
    else if 'a' <= c <= 'f' then Some((c - 'a') as int + 10)
    else if 'A' <= c <= 'F' then Some((c - 'A') as int + 10)
    else None
  }

  lemma {:induction false} DigitRoundTrip(d: nat)
    requires d < 16
    ensures DigitValue(DigitChar(d)) == Some(d)
  {
  }

  /** A number in positional notation without leading zeros. */
  function Digits(n: nat, base: nat): (s: string)
    requires 2 <= base <= 16
    ensures |s| > 0
    decreases n
  {
    if n < base then [DigitChar(n)]
    else
      DivModSum(n, base);
      Digits(n / base, base) + [DigitChar(n % base)]
  }

  /** The value of a run of digits, or nothing when some character is not one. */
  function ParseDigits(s: string, base: nat): Option<nat>
  {
    if s == [] then Some(0)
    else
      var high :- ParseDigits(s[..|s| - 1], base);
      var low :- DigitValue(s[|s| - 1]);
      if low < base then Some(high * base + low) else None
  }

  lemma {:induction false} ParseSnoc(head: string, c: char, base: nat)
    requires ParseDigits(head, base).Some? && DigitValue(c).Some? && DigitValue(c).value < base
    ensures ParseDigits(head + [c], base) == Some(ParseDigits(head, base).value * base + DigitValue(c).value)
  {
    var s := head + [c];
    assert s[..|s| - 1] == head;
  }

  lemma {:induction false} ParsePrinted(n: nat, base: nat)
    requires 2 <= base <= 16
    ensures ParseDigits(Digits(n, base), base) == Some(n)
    decreases n
  {
    hide ParseDigits;
    hide DigitChar;
    if n < base {
      OneDigitParses(n, base);
    } else {
      DivModSum(n, base);
      ParsePrinted(n / base, base);
      PrintedStep(Digits(n / base, base), n / base, n % base, base);
    }
  }

  lemma {:induction false} OneDigitParses(d: nat, base: nat)
    requires 2 <= base <= 16 && d < base
    ensures ParseDigits([DigitChar(d)], base) == Some(d)
  {
    hide DigitChar;
    assert ParseDigits([], base) == Some(0);
    PrintedStep([], 0, d, base);
    assert [] + [DigitChar(d)] == [DigitChar(d)];
  }

  lemma {:induction false} PrintedStep(head: string, high: nat, low: nat, base: nat)
    requires 2 <= base <= 16 && low < base
    requires ParseDigits(head, base) == Some(high)
    ensures ParseDigits(head + [DigitChar(low)], base) == Some(high * base + low)
  {
    hide ParseDigits;
    hide DigitChar;
    DigitRoundTrip(low);
    ParseSnoc(head, DigitChar(low), base);
  }

  lemma {:induction false} DivModSum(n: nat, base: nat)
    requires base > 0
    ensures (n / base) * base + n % base == n
    ensures 2 <= base <= n ==> n / base < n
  {
  }

  ghost predicate AllDigits(s: string, base: nat)
  {
    forall i :: 0 <= i < |s| ==> DigitValue(s[i]).Some? && DigitValue(s[i]).value < base
  }

  lemma {:induction false} ParsedAreDigits(s: string, base: nat)
    requires ParseDigits(s, base).Some?
    ensures AllDigits(s, base)
  {
    if s != [] {
      ParsedAreDigits(s[..|s| - 1], base);
    }
  }

  lemma {:induction false} DigitsAreDigits(n: nat, base: nat)
    requires 2 <= base <= 16
    ensures AllDigits(Digits(n, base), base)
    decreases n
  {
    if n < base {
      DigitRoundTrip(n);
    } else {
      DivModSum(n, base);
      var high, low := n / base, n % base;
      DigitsAreDigits(high, base);
      DigitRoundTrip(low);
      OneMoreDigit(Digits(high, base), DigitChar(low), base);
    }
  }

  lemma {:induction false} OneMoreDigit(head: string, last: char, base: nat)
    requires AllDigits(head, base) && DigitValue(last).Some? && DigitValue(last).value < base
    ensures AllDigits(head + [last], base)
  {
    hide DigitValue;
  }

  /** How many digits a number takes is decided by the power of the base above it. */
  lemma {:induction false} WidthBound(n: nat, base: nat, width: nat)
    requires 2 <= base <= 16 && width > 0
    ensures |Digits(n, base)| <= width <==> n < Power(base, width)
    decreases n
  {
    if width == 1 {
      assert Power(base, 1) == base * Power(base, 0) == base;
    } else if n < base {
      PowerPositive(base, width - 1);
      MulMonotone(base, 1, Power(base, width - 1));
    } else {
      DivModSum(n, base);
      WidthBound(n / base, base, width - 1);
      DivBelow(n, base, Power(base, width - 1));
    }
  }

  lemma {:induction false} MulMonotone(a: nat, x: int, y: int)
    requires x <= y
    ensures a * x <= a * y
  {
  }

  lemma {:induction false} DivBelow(n: nat, base: nat, bound: nat)
    requires base > 0
    ensures n / base < bound <==> n < base * bound
  {
    var q, r := n / base, n % base;
    assert n == base * q + r;
    if q < bound {
      MulMonotone(base, q + 1, bound);
      assert base * (q + 1) == base * q + base;
    } else {
      MulMonotone(base, bound, q);
    }
  }

  lemma {:induction false} WidthMonotone(m: nat, n: nat, base: nat)
    requires 2 <= base <= 16 && m <= n
    ensures |Digits(m, base)| <= |Digits(n, base)|
  {
    var width := |Digits(n, base)|;
    WidthBound(n, base, width);
    WidthBound(m, base, width);
  }

  function Decimal(n: nat): (s: string)
  {
    Digits(n, 10)
  }

  /** `from_str_radix` of an unsigned type: one optional plus sign, then at least one digit. */
  function FromStrRadix(text: string, radix: nat, max: nat): Option<nat>
  {
    var digits := if |text| > 1 && text[0] == '+' then text[1..] else text;
    if digits == [] then None
    else
      var value :- ParseDigits(digits, radix);
      if value <= max then Some(value) else None
  }

  lemma {:induction false} FromPrinted(n: nat, radix: nat, max: nat)
    requires 2 <= radix <= 16
    ensures FromStrRadix(Digits(n, radix), radix, max) == if n <= max then Some(n) else None
  {
    DigitsAreDigits(n, radix);
    assert DigitValue('+') == None;
    ParsePrinted(n, radix);
  }

  function ParseU64(text: string): Result<u64>
  {
    match FromStrRadix(text, 10, U64_LIMIT - 1)
    case Some(n) => Ok(n)
    case None => Err(BadAttribute)
  }

  lemma {:induction false} ParsePrintedU64(n: nat)
    ensures ParseU64(Decimal(n)) == if n < U64_LIMIT then Ok(n) else Err(BadAttribute)
  {
    FromPrinted(n, 10, U64_LIMIT - 1);
  }

  // ----------------------------------------------------------------- strings

  predicate IsLetter(c: char) { 'a' <= c <= 'z' || 'A' <= c <= 'Z' }

  /** Position of the first occurrence of a character, or the length when there is none. */
  function IndexOf(text: string, c: char): (i: nat)
    ensures i <= |text|
    ensures forall k :: 0 <= k < i ==> text[k] != c
    ensures i < |text| ==> text[i] == c
  {
    if text == [] || text[0] == c then 0 else 1 + IndexOf(text[1..], c)
  }

  /** Position after the last occurrence of a character, or zero when there is none. */
  function AfterLast(text: string, c: char): (i: nat)
    ensures i <= |text|
    ensures forall k :: i <= k < |text| ==> text[k] != c
    ensures i > 0 ==> text[i - 1] == c
  {
    if text == [] then 0
    else if text[|text| - 1] == c then |text|
    else AfterLast(text[..|text| - 1], c)
  }

  lemma {:induction false} IndexOfUnique(head: string, c: char, tail: string)
    requires c !in head
    ensures IndexOf(head + [c] + tail, c) == |head|
  {
    var text := head + [c] + tail;
    assert text[|head|] == c;
    assert forall k :: 0 <= k < |head| ==> text[k] == head[k];
  }

  lemma {:induction false} AfterLastUnique(head: string, c: char, tail: string)
    requires c !in tail
    ensures AfterLast(head + [c] + tail, c) == |head| + 1
  {
    var text := head + [c] + tail;
    assert text[|head|] == c;
    assert forall k :: |head| < k < |text| ==> text[k] == tail[k - 1 - |head|];
  }

  function SplitOnce(text: string, c: char): Option<(string, string)>
  {
    var i := IndexOf(text, c);
    if i == |text| then None else Some((text[..i], text[i + 1..]))
  }

  lemma {:induction false} SplitOnceAt(head: string, c: char, tail: string)
    requires c !in head
    ensures SplitOnce(head + [c] + tail, c) == Some((head, tail))
  {
    IndexOfUnique(head, c, tail);
    var text := head + [c] + tail;
    assert text[..|head|] == head;
    assert text[|head| + 1..] == tail;
  }

  /** Splitting once finds the one division whose first half has no separator. */
  lemma {:induction false} SplitOnceExactly(text: string, c: char, head: string, tail: string)
    ensures SplitOnce(text, c) == Some((head, tail)) <==> c !in head && text == head + [c] + tail
  {
    var i := IndexOf(text, c);
    if i < |text| {
      assert text == text[..i] + [c] + text[i + 1..];
      assert c !in text[..i];
    }
    if c !in head && text == head + [c] + tail {
      SplitOnceAt(head, c, tail);
    }
  }

  /** Every field between separators; at least one, possibly empty. */
  function Split(text: string, c: char): (fields: seq<string>)
    ensures |fields| > 0
    ensures forall f <- fields :: c !in f
    decreases |text|
  {
    var i := IndexOf(text, c);
    if i == |text| then assert text[..i] == text; [text]
    else [text[..i]] + Split(text[i + 1..], c)
  }

  function Join(fields: seq<string>, c: char): string
    requires |fields| > 0
  {
    if |fields| == 1 then fields[0] else fields[0] + [c] + Join(fields[1..], c)
  }

  lemma {:induction false} JoinOfSplit(text: string, c: char)
    ensures Join(Split(text, c), c) == text
    decreases |text|
  {
    var i := IndexOf(text, c);
    if i < |text| {
      var rest := Split(text[i + 1..], c);
      JoinOfSplit(text[i + 1..], c);
      JoinCons(text[..i], c, rest);
      assert text == text[..i] + [c] + text[i + 1..];
    }
  }

  lemma {:induction false} JoinCons(field: string, c: char, rest: seq<string>)
    requires |rest| > 0
    ensures Join([field] + rest, c) == field + [c] + Join(rest, c)
  {
    assert ([field] + rest)[1..] == rest;
  }

  lemma {:induction false} SplitJoin(fields: seq<string>, c: char)
    requires |fields| > 0
    requires forall f <- fields :: c !in f
    ensures Split(Join(fields, c), c) == fields
  {
    var first, rest := fields[0], fields[1..];
    if |fields| == 1 {
      SplitSingle(first, c);
      assert fields == [first];
    } else {
      assert first in fields;
      SplitJoin(rest, c);
      SplitCons(first, c, Join(rest, c), rest);
      assert fields == [first] + rest;
    }
  }

  lemma {:induction false} SplitSingle(field: string, c: char)
    requires c !in field
    ensures Split(field, c) == [field]
  {
    assert field[..|field|] == field;
  }

  lemma {:induction false} SplitCons(field: string, c: char, tail: string, rest: seq<string>)
    requires c !in field && Split(tail, c) == rest
    ensures Split(field + [c] + tail, c) == [field] + rest
  {
    SplitOnceAt(field, c, tail);
  }

  predicate StartsWith(text: string, prefix: string)
  {
    |prefix| <= |text| && text[..|prefix|] == prefix
  }

  predicate EndsWith(text: string, suffix: string)
  {
    |suffix| <= |text| && text[|text| - |suffix|..] == suffix
  }

  function StripPrefix(text: string, prefix: string): Option<string>
  {
    if StartsWith(text, prefix) then Some(text[|prefix|..]) else None
  }

  function StripSuffix(text: string, suffix: string): Option<string>
  {
    if EndsWith(text, suffix) then Some(text[..|text| - |suffix|]) else None
  }

  /** The White_Space property of Unicode, which is what `str::trim` removes. */
  predicate IsWhiteSpace(c: char)
  {
    var u := c as int;
    9 <= u <= 13 || u == 0x20 || u == 0x85 || u == 0xA0 || u == 0x1680 || 0x2000 <= u <= 0x200A
    || u == 0x2028 || u == 0x2029 || u == 0x202F || u == 0x205F || u == 0x3000
  }

  function TrimStart(text: string): string
  {
    if text != [] && IsWhiteSpace(text[0]) then TrimStart(text[1..]) else text
  }

  function TrimEnd(text: string): string
  {
    if text != [] && IsWhiteSpace(text[|text| - 1]) then TrimEnd(text[..|text| - 1]) else text
  }

  function Trim(text: string): string { TrimEnd(TrimStart(text)) }

  predicate EndsInWhiteSpace(text: string)
  {
    text != [] && IsWhiteSpace(text[|text| - 1])
  }

  lemma {:induction false} TrimmedAlready(text: string)
    requires text != [] && !IsWhiteSpace(text[0])
    ensures Trim(text) == TrimEnd(text)
    ensures Trim(text) == text <==> !EndsInWhiteSpace(text)
  {
    TrimEndShrinks(text);
  }

  lemma {:induction false} TrimEndShrinks(text: string)
    ensures |TrimEnd(text)| <= |text|
    ensures EndsInWhiteSpace(text) ==> |TrimEnd(text)| < |text|
  {
    if EndsInWhiteSpace(text) {
      TrimEndShrinks(text[..|text| - 1]);
    }
  }

  // ------------------------------------------- what trimming and parsing take

  ghost predicate AllWhite(text: string) { forall c <- text :: IsWhiteSpace(c) }

  /** Neither end is white space. */
  predicate IsTight(text: string)
  {
    text == "" || (!IsWhiteSpace(text[0]) && !IsWhiteSpace(text[|text| - 1]))
  }

  ghost predicate IsPadded(text: string, core: string)
  {
    exists before, after :: AllWhite(before) && AllWhite(after) && text == before + core + after
  }

  /** Trimming takes all the white space off both ends, and nothing else. */
  lemma {:induction false} TrimExactly(text: string, core: string)
    ensures Trim(text) == core <==> IsTight(core) && IsPadded(text, core)
  {
    var before := TrimStartParts(text);
    var after := TrimEndParts(TrimStart(text));
    assert text == before + Trim(text) + after;
    if Trim(text) != "" {
      assert TrimStart(text)[0] == Trim(text)[0];
    }
    if IsTight(core) && IsPadded(text, core) {
      var b, a :| AllWhite(b) && AllWhite(a) && text == b + core + a;
      TrimPadded(b, core, a);
    }
  }

  lemma {:induction false} TrimStartParts(text: string) returns (before: string)
    ensures AllWhite(before) && text == before + TrimStart(text)
    ensures TrimStart(text) == "" || !IsWhiteSpace(TrimStart(text)[0])
  {
    before := "";
    if text != "" && IsWhiteSpace(text[0]) {
      var rest := TrimStartParts(text[1..]);
      before := [text[0]] + rest;
    }
  }

  lemma {:induction false} TrimEndParts(text: string) returns (after: string)
    ensures AllWhite(after) && text == TrimEnd(text) + after
    ensures TrimEnd(text) == "" || !IsWhiteSpace(TrimEnd(text)[|TrimEnd(text)| - 1])
  {
    after := "";
    if EndsInWhiteSpace(text) {
      var n := |text| - 1;
      var rest := TrimEndParts(text[..n]);
      after := rest + [text[n]];
      assert AllWhite(after);
      assert TrimEnd(text) == TrimEnd(text[..n]);
      hide TrimEnd;
      hide IsWhiteSpace;
      assert text == text[..n] + [text[n]];
    }
  }

  lemma {:induction false} TrimPadded(before: string, core: string, after: string)
    requires AllWhite(before) && AllWhite(after) && IsTight(core)
    ensures Trim(before + core + after) == core
  {
    if before != "" {
      var text, shorter := before + core + after, before[1..] + core + after;
      assert before[0] in before && text[1..] == shorter;
      TrimPadded(before[1..], core, after);
    } else if core != "" {
      var text := before + core + after;
      assert text == core + after;
      TrimTail(core, after);
    } else {
      assert before + core + after == after;
      TrimWhite(after);
    }
  }

  lemma {:induction false} TrimTail(core: string, after: string)
    requires AllWhite(after) && core != "" && IsTight(core)
    ensures TrimEnd(core + after) == core && TrimStart(core + after) == core + after
  {
    if after == "" {
      assert core + after == core;
    } else {
      var n := |after| - 1;
      assert after[n] in after && (core + after)[..|core| + n] == core + after[..n];
      TrimTail(core, after[..n]);
    }
  }

  lemma {:induction false} TrimWhite(text: string)
    requires AllWhite(text)
    ensures TrimStart(text) == ""
  {
    if text != "" {
      assert text[0] in text;
      TrimWhite(text[1..]);
    }
  }

  function Zeros(n: nat): (zeros: string)
    ensures |zeros| == n
  {
    seq(n, _ => '0')
  }

  function NumberText(plus: bool, zeros: nat, n: nat): string
  {
    (if plus then "+" else "") + (Zeros(zeros) + Decimal(n))
  }

  /** A number in decimal, perhaps with a plus sign and leading zeros. */
  ghost predicate Numbers(text: string, n: nat)
  {
    exists plus, zeros :: text == NumberText(plus, zeros, n)
  }

  lemma {:induction false} ZerosParse(zeros: nat, digits: string)
    requires ParseDigits(digits, 10).Some?
    ensures ParseDigits(Zeros(zeros) + digits, 10) == ParseDigits(digits, 10)
    decreases |digits| + zeros
  {
    var s := Zeros(zeros) + digits;
    if digits != "" {
      var n := |digits| - 1;
      ZerosParse(zeros, digits[..n]);
      assert s[..|s| - 1] == Zeros(zeros) + digits[..n];
    } else if zeros > 0 {
      ZerosParse(zeros - 1, "");
      assert s[..|s| - 1] == Zeros(zeros - 1) + "";
    }
  }

  /** Digits are the number they parse to, after some zeros. */
  lemma {:induction false} ParsedIsPrinted(s: string, n: nat) returns (zeros: nat)
    requires s != "" && ParseDigits(s, 10) == Some(n)
    ensures s == Zeros(zeros) + Decimal(n)
  {
    var k := |s| - 1;
    var head, last := s[..k], s[k];
    assert s == head + [last];
    var low := DigitValue(last).value;
    assert last == DigitChar(low);
    if head == "" {
      assert n == low;
      return 0;
    }
    var high := ParseDigits(head, 10).value;
    zeros := ParsedIsPrinted(head, high);
    if high == 0 {
      assert Decimal(0) == ['0'] && Decimal(n) == [last];
      assert s == Zeros(zeros + 1) + [last];
      return zeros + 1;
    }
    assert n / 10 == high && n % 10 == low;
    assert Decimal(n) == Decimal(high) + [last];
  }

  /** Exactly which texts are read as a 64-bit number, and as which; every other is refused alike. */
  lemma {:induction false} ParseU64Exactly(text: string, n: u64)
    ensures ParseU64(text) == Ok(n) <==> Numbers(text, n)
    ensures ParseU64(text).Err? ==> ParseU64(text) == Err(BadAttribute)
  {
    hide ParseDigits;
    if ParseU64(text) == Ok(n) {
      var plus := |text| > 1 && text[0] == '+';
      var zeros := ParsedIsPrinted(if plus then text[1..] else text, n);
      assert text == NumberText(plus, zeros, n);
    }
    forall plus, zeros | text == NumberText(plus, zeros, n)
      ensures ParseU64(text) == Ok(n)
    {
      var digits := Zeros(zeros) + Decimal(n);
      ParsePrinted(n, 10);
      ZerosParse(zeros, Decimal(n));
      DigitsAreDigits(n, 10);
      assert digits[0] == if zeros > 0 then '0' else Decimal(n)[0];
      assert DigitValue('+') == None;
      assert text == if plus then "+" + digits else digits;
    }
  }
}
