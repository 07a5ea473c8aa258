/** The writer's date arithmetic against a calendar that is counted day by day. */
module Calendar {
  import opened Primitives
  import opened Text

  datatype Date = Date(year: int, month: int, day: int)

  predicate IsLeap(year: int)
  {
    year % 4 == 0 && (year % 100 != 0 || year % 400 == 0)
  }

  function MonthLength(year: int, month: int): int
  {
    if month == 2 then if IsLeap(year) then 29 else 28
    else if month == 4 || month == 6 || month == 9 || month == 11 then 30
    else 31
  }

  predicate IsDate(d: Date)
  {
    1 <= d.month <= 12 && 1 <= d.day <= MonthLength(d.year, d.month)
  }

  /** The day after a date in the Gregorian calendar. */
  function NextDay(d: Date): Date
  {
    if d.day < MonthLength(d.year, d.month) then d.(day := d.day + 1)
    else if d.month < 12 then Date(d.year, d.month + 1, 1)
    else Date(d.year + 1, 1, 1)
  }

  /** The date `n` days after 1970-01-01, counted one day at a time. */
  function CountedDate(n: nat): Date
  {
    if n == 0 then Date(1970, 1, 1) else NextDay(CountedDate(n - 1))
  }

  predicate Before(a: Date, b: Date)
  {
    a.year < b.year
    || (a.year == b.year && (a.month < b.month || (a.month == b.month && a.day < b.day)))
  }

  // ------------------------------------------------------ the closed form

  /** The closed form; `/` and `%` are the Euclidean operators the source calls by name. */
  function CivilFromDays(days: int): Date
  {
    var shifted := days + 719_468;
    var era := shifted / 146_097;
    var dayOfEra := shifted % 146_097;
    var yearOfEra := YearOfEra(dayOfEra);
    var year := yearOfEra + era * 400;
    var dayOfYear := dayOfEra - (365 * yearOfEra + yearOfEra / 4 - yearOfEra / 100);
    var shiftedMonth := (5 * dayOfYear + 2) / 153;
    var day := dayOfYear - (153 * shiftedMonth + 2) / 5 + 1;
    var month := if shiftedMonth < 10 then shiftedMonth + 3 else shiftedMonth - 9;
    Date(if month <= 2 then year + 1 else year, month, day)
  }

  function YearOfEra(dayOfEra: int): int
  {
    (dayOfEra - dayOfEra / 1460 + dayOfEra / 36_524 - dayOfEra / 146_096) / 365
  }

  /** The day of the era on which its `y`th March-based year begins. */
  function YearStart(y: int): int { 365 * y + y / 4 - y / 100 + y / 400 }

  lemma {:induction false} DivStep(y: int, k: int)
    requires k > 0
    ensures (y + 1) / k == y / k + if (y + 1) % k == 0 then 1 else 0
  {
    var q, r := y / k, y % k;
    if r + 1 == k {
      DivUnique(y + 1, k, q + 1, 0);
    } else {
      DivUnique(y + 1, k, q, r + 1);
    }
  }

  lemma {:induction false} DivUnique(n: int, k: int, q: int, r: int)
    requires 0 <= r < k && n == k * q + r
    ensures n / k == q && n % k == r
  {
    var d := n / k - q;
    assert k * d == r - n % k;
    assert d >= 1 ==> k * d >= k;
    assert d <= -1 ==> k * d <= -k;
  }

  lemma {:induction false} YearStartIncreases(y: int)
    ensures YearStart(y + 1) - YearStart(y) == if IsLeap(y + 1) then 366 else 365
  {
    DivStep(y, 4);
    DivStep(y, 100);
    DivStep(y, 400);
    CenturiesAreFours(y + 1);
  }

  lemma {:induction false} CenturiesAreFours(y: int)
    ensures y % 400 == 0 ==> y % 100 == 0
    ensures y % 100 == 0 ==> y % 4 == 0
  {
    if y % 400 == 0 {
      DivUnique(y, 100, 4 * (y / 400), 0);
    }
    if y % 100 == 0 {
      DivUnique(y, 4, 25 * (y / 100), 0);
    }
  }

  /** A day of the era is day `k` of year `j` of four-year cycle `q` of century `c`. */
  lemma {:induction false} YearFormula(c: int, q: int, j: int, k: int)
    requires 0 <= c < 4 && 0 <= q < 25 && 0 <= j < 4 && 0 <= k < 366
    requires k == 365 ==> j == 3 && (q < 24 || c == 3)
    ensures var d, y := 36_524 * c + 1461 * q + 365 * j + k, 100 * c + 4 * q + j;
      YearOfEra(d) == y && YearStart(y) == d - k
  {
    var d, y := 36_524 * c + 1461 * q + 365 * j + k, 100 * c + 4 * q + j;
    var e1, e2, e3 := DayQuotients(c, q, j, k);
    DivUnique(d - (25 * c + q + e1) + (c + e2) - e3, 365, y, k - e1 + e2 - e3);
    YearStartIs(c, q, j);
  }

  /** The three quotients of a day of the era, each off by at most one from those of its year. */
  lemma {:induction false} DayQuotients(c: int, q: int, j: int, k: int) returns (e1: int, e2: int, e3: int)
    requires 0 <= c < 4 && 0 <= q < 25 && 0 <= j < 4 && 0 <= k < 366
    requires k == 365 ==> j == 3 && (q < 24 || c == 3)
    ensures var d := 36_524 * c + 1461 * q + 365 * j + k;
      d / 1460 == 25 * c + q + e1 && d / 36_524 == c + e2 && d / 146_096 == e3
    ensures e1 == (if 24 * c + q + 365 * j + k >= 1460 then 1 else 0)
    ensures e2 == (if 1461 * q + 365 * j + k >= 36_524 then 1 else 0) && e3 == (if c == 3 && e2 == 1 then 1 else 0)
  {
    var d := 36_524 * c + 1461 * q + 365 * j + k;
    e1 := if 24 * c + q + 365 * j + k >= 1460 then 1 else 0;
    e2 := if 1461 * q + 365 * j + k >= 36_524 then 1 else 0;
    e3 := if c == 3 && e2 == 1 then 1 else 0;
    DivUnique(d, 1460, 25 * c + q + e1, 24 * c + q + 365 * j + k - 1460 * e1);
    DivUnique(d, 36_524, c + e2, 1461 * q + 365 * j + k - 36_524 * e2);
    DivUnique(d, 146_096, e3, d - 146_096 * e3);
  }

  lemma {:induction false} YearStartIs(c: int, q: int, j: int)
    requires 0 <= c < 4 && 0 <= q < 25 && 0 <= j < 4
    ensures YearStart(100 * c + 4 * q + j) == 36_524 * c + 1461 * q + 365 * j
  {
    var y := 100 * c + 4 * q + j;
    DivUnique(y, 4, 25 * c + q, j);
    DivUnique(y, 100, c, 4 * q + j);
    DivUnique(y, 400, 0, y);
  }

  lemma {:induction false} YearOfEraExact(dayOfEra: int)
    requires 0 <= dayOfEra < 146_097
    ensures var y := YearOfEra(dayOfEra); 0 <= y < 400 && YearStart(y) <= dayOfEra < YearStart(y + 1)
  {
    var c := if dayOfEra == 146_096 then 3 else dayOfEra / 36_524;
    var inCentury := dayOfEra - 36_524 * c;
    var q := inCentury / 1461;
    var inCycle := inCentury - 1461 * q;
    var j := if inCycle == 1460 then 3 else inCycle / 365;
    var k := inCycle - 365 * j;
    YearFormula(c, q, j, k);
    YearEnd(c, q, j);
    assert dayOfEra == 36_524 * c + 1461 * q + 365 * j + k;
  }

  /** Only the last year of a four-year cycle has a 366th day, and not in the last cycle of a short century. */
  lemma {:induction false} YearEnd(c: int, q: int, j: int)
    requires 0 <= c < 4 && 0 <= q < 25 && 0 <= j < 4
    ensures YearStart(100 * c + 4 * q + j + 1) - YearStart(100 * c + 4 * q + j)
         == if j == 3 && (q < 24 || c == 3) then 366 else 365
  {
    var y := 100 * c + 4 * q + j;
    YearStartIncreases(y);
    if j < 3 {
      DivUnique(y + 1, 4, 25 * c + q, j + 1);
    } else {
      DivUnique(y + 1, 4, 25 * c + q + 1, 0);
      DivUnique(y + 1, 100, if q == 24 then c + 1 else c, if q == 24 then 0 else 4 * q + 4);
      DivUnique(y + 1, 400, if y == 399 then 1 else 0, if y == 399 then 0 else y + 1);
    }
  }

  function MonthStart(m: int): int { (153 * m + 2) / 5 }

  lemma {:induction false} MonthExact(dayOfYear: int)
    requires 0 <= dayOfYear < 366
    ensures var m := (5 * dayOfYear + 2) / 153; 0 <= m < 12 && MonthStart(m) <= dayOfYear < MonthStart(m + 1)
  {
  }

  /** Day `k` of the March-based year that begins in March of `year`. */
  function DayOfYear(year: int, k: int): Date
  {
    var m := (5 * k + 2) / 153;
    var month := if m < 10 then m + 3 else m - 9;
    Date(if month <= 2 then year + 1 else year, month, k - MonthStart(m) + 1)
  }

  function YearLength(year: int): int { if IsLeap(year + 1) then 366 else 365 }

  lemma {:induction false} DayOfYearNext(year: int, k: int)
    requires 0 <= k < YearLength(year)
    ensures IsDate(DayOfYear(year, k))
    ensures NextDay(DayOfYear(year, k)) ==
            if k + 1 < YearLength(year) then DayOfYear(year, k + 1) else DayOfYear(year + 1, 0)
  {
    var m := (5 * k + 2) / 153;
    MonthExact(k);
    MonthLengths(year, m);
    if k + 1 < MonthStart(m + 1) {
      MonthIs(k + 1, m);
    } else {
      MonthIs(k + 1, m + 1);
    }
  }

  lemma {:induction false} MonthIs(k: int, m: int)
    requires 0 <= m <= 12 && MonthStart(m) <= k < MonthStart(m + 1)
    ensures (5 * k + 2) / 153 == m
  {
  }

  /** The twelve months counted from March: each ends where the next begins, and February where the year does. */
  lemma {:induction false} MonthLengths(year: int, m: int)
    requires 0 <= m < 12
    ensures MonthLength(if m < 10 then year else year + 1, if m < 10 then m + 3 else m - 9)
         == (if m < 11 then MonthStart(m + 1) else YearLength(year)) - MonthStart(m)
  {
  }

  lemma {:induction false} LeapPeriod(year: int, era: int)
    ensures IsLeap(year + 400 * era) == IsLeap(year)
  {
    DivUnique(year + 400 * era, 400, year / 400 + era, year % 400);
    DivUnique(year + 400 * era, 100, year / 100 + 4 * era, year % 100);
    DivUnique(year + 400 * era, 4, year / 4 + 100 * era, year % 4);
  }

  lemma {:induction false} YearStartMonotone(a: int, b: int)
    requires a <= b
    ensures YearStart(a) <= YearStart(b)
    decreases b - a
  {
    if a < b {
      YearStartIncreases(a);
      YearStartMonotone(a + 1, b);
    }
  }

  /** Splits a day number into its era, its year of the era and its day of that year. */
  lemma {:induction false} CivilSplit(days: int) returns (era: int, y: int, k: int, year: int)
    ensures 0 <= y < 400 && 0 <= k < YearLength(year) && year == y + 400 * era
    ensures days + 719_468 == 146_097 * era + YearStart(y) + k
    ensures CivilFromDays(days) == DayOfYear(year, k)
  {
    era, y, k := SplitDay(days);
    year := y + 400 * era;
    DivUnique(y, 400, 0, y);
  }

  lemma {:induction false} SplitDay(days: int) returns (era: int, y: int, k: int)
    ensures 0 <= y < 400 && 0 <= k < YearLength(y + 400 * era)
    ensures days + 719_468 == 146_097 * era + YearStart(y) + k
    ensures era == (days + 719_468) / 146_097 && y == YearOfEra((days + 719_468) % 146_097)
    ensures k == (days + 719_468) % 146_097 - YearStart(y)
  {
    var shifted := days + 719_468;
    era := shifted / 146_097;
    var dayOfEra := shifted % 146_097;
    YearOfEraExact(dayOfEra);
    y := YearOfEra(dayOfEra);
    k := dayOfEra - YearStart(y);
    YearStartIncreases(y);
    LeapPeriod(y + 1, era);
  }

  lemma {:induction false} SplitUnique(e1: int, y1: int, k1: int, e2: int, y2: int, k2: int)
    requires 0 <= y1 < 400 && 0 <= y2 < 400
    requires 0 <= k1 < YearLength(y1) && 0 <= k2 < YearLength(y2)
    requires 146_097 * e1 + YearStart(y1) + k1 == 146_097 * e2 + YearStart(y2) + k2
    ensures e1 == e2 && y1 == y2 && k1 == k2
  {
    YearStartIncreases(y1);
    YearStartIncreases(y2);
    YearStartMonotone(0, y1);
    YearStartMonotone(0, y2);
    YearStartMonotone(y1 + 1, 400);
    YearStartMonotone(y2 + 1, 400);
    if y1 < y2 {
      YearStartMonotone(y1 + 1, y2);
    } else if y2 < y1 {
      YearStartMonotone(y2 + 1, y1);
    }
  }

  lemma {:induction false} YearLengthPeriod(year: int, era: int)
    ensures YearLength(year + 400 * era) == YearLength(year)
  {
    LeapPeriod(year + 1, era);
  }

  /** One day on is the next day of the year, or the first of the next year. */
  predicate Follows(year: int, k: int, year': int, k': int)
  {
    if k + 1 < YearLength(year) then year' == year && k' == k + 1 else year' == year + 1 && k' == 0
  }

  lemma {:induction false} SplitSteps(era: int, y: int, k: int, year: int, era': int, y': int, k': int, year': int)
    requires year == y + 400 * era && 0 <= y < 400 && 0 <= k < YearLength(year)
    requires year' == y' + 400 * era' && 0 <= y' < 400 && 0 <= k' < YearLength(year')
    requires 146_097 * era' + YearStart(y') + k' == 146_097 * era + YearStart(y) + k + 1
    ensures Follows(year, k, year', k')
  {
    YearLengthPeriod(y, era);
    YearLengthPeriod(y', era');
    YearStartIncreases(y);
    if k + 1 < YearLength(y) {
      SplitUnique(era', y', k', era, y, k + 1);
    } else if y < 399 {
      SplitUnique(era', y', k', era, y + 1, 0);
    } else {
      SplitUnique(era', y', k', era + 1, 0, 0);
    }
  }

  /** The closed form always gives a date, and steps as the calendar steps, before and after the epoch. */
  lemma {:induction false} CivilSteps(days: int)
    ensures IsDate(CivilFromDays(days))
    ensures CivilFromDays(days + 1) == NextDay(CivilFromDays(days))
  {
    var year, k, year', k' := CivilPair(days, days + 1);
    DatesFollow(CivilFromDays(days), CivilFromDays(days + 1), year, k, year', k');
  }

  lemma {:induction false} CivilPair(days: int, next: int) returns (year: int, k: int, year': int, k': int)
    requires next == days + 1
    ensures CivilFromDays(days) == DayOfYear(year, k)
    ensures CivilFromDays(next) == DayOfYear(year', k')
    ensures 0 <= k < YearLength(year)
    ensures Follows(year, k, year', k')
  {
    var era, y, era', y';
    era, y, k, year := CivilSplit(days);
    era', y', k', year' := CivilSplit(next);
    SplitSteps(era, y, k, year, era', y', k', year');
  }

  lemma {:induction false} DatesFollow(d: Date, e: Date, year: int, k: int, year': int, k': int)
    requires d == DayOfYear(year, k) && e == DayOfYear(year', k') && 0 <= k < YearLength(year)
    requires Follows(year, k, year', k')
    ensures IsDate(d) && e == NextDay(d)
  {
    DayOfYearNext(year, k);
  }

  lemma {:induction false} Epoch()
    ensures CivilFromDays(0) == Date(1970, 1, 1)
  {
    DivUnique(719_468, 146_097, 4, 135_080);
    YearFormula(3, 17, 1, 306);
    DivUnique(369, 4, 92, 1);
    DivUnique(369, 100, 3, 69);
    DivUnique(1532, 153, 10, 2);
    DivUnique(1532, 5, 306, 2);
  }

  /** The closed form is day-by-day counting, for every day from 1970-01-01 on. */
  lemma {:induction false} CivilIsCounted(n: nat)
    ensures CivilFromDays(n) == CountedDate(n)
  {
    if n == 0 {
      Epoch();
    } else {
      CivilIsCounted(n - 1);
      CivilSteps(n - 1);
    }
  }

  lemma {:induction false} DatesIncrease(a: nat, b: nat)
    requires a < b
    ensures Before(CivilFromDays(a), CivilFromDays(b))
    decreases b - a
  {
    CivilSteps(a);
    NextIsLater(CivilFromDays(a));
    if a + 1 < b {
      DatesIncrease(a + 1, b);
      BeforeChains(CivilFromDays(a), CivilFromDays(a + 1), CivilFromDays(b));
    }
  }

  lemma {:induction false} NextIsLater(d: Date)
    ensures Before(d, NextDay(d))
  {
  }

  lemma {:induction false} BeforeChains(a: Date, b: Date, c: Date)
    requires Before(a, b) && Before(b, c)
    ensures Before(a, c)
  {
  }

  // --------------------------------------------------------- instants as text

  /** `{n:0width}`: decimal, padded on the left with zeros to at least `width` characters. */
  function Padded(n: nat, width: nat): (s: string)
  {
    Zeros(width - |Decimal(n)|) + Decimal(n)
  }

  function Zeros(count: int): (s: string)
  {
    if count <= 0 then "" else Zeros(count - 1) + "0"
  }

  /** One number of an instant, its width, and the character that follows it. */
  datatype Field = Field(value: nat, width: nat, mark: char)

  function Stamp(fields: seq<Field>): string
  {
    if fields == [] then ""
    else Padded(fields[0].value, fields[0].width) + [fields[0].mark] + Stamp(fields[1..])
  }

  function InstantFields(seconds: nat): seq<Field>
  {
    CivilSteps(seconds / 86_400);
    YearNotNegative(seconds / 86_400);
    FieldsOf(CivilFromDays(seconds / 86_400), seconds % 86_400)
  }

  function FieldsOf(date: Date, time: nat): seq<Field>
    requires date.year >= 0 && IsDate(date)
  {
    [Field(date.year, 4, '-'), Field(date.month, 2, '-'), Field(date.day, 2, 'T'),
     Field(time / 3600, 2, ':'), Field((time % 3600) / 60, 2, ':'), Field(time % 60, 2, 'Z')]
  }

  /** A Unix timestamp as `YYYY-MM-DDThh:mm:ssZ`. */
  function Iso8601(seconds: nat): string { Stamp(InstantFields(seconds)) }

  lemma {:induction false} YearNotNegative(days: nat)
    ensures CivilFromDays(days).year >= 1970
  {
    Epoch();
    if days > 0 {
      DatesIncrease(0, days);
    }
  }

  /** The order of strings by their first difference. */
  predicate TextLess(a: string, b: string)
  {
    if a == [] then b != []
    else b != [] && (a[0] < b[0] || (a[0] == b[0] && TextLess(a[1..], b[1..])))
  }

  lemma {:induction false} TextLessHead(a: string, b: string, x: string, y: string)
    requires |a| == |b|
    ensures TextLess(a + x, b + y) <==> TextLess(a, b) || (a == b && TextLess(x, y))
  {
    if a == [] {
      assert a + x == x && b + y == y;
    } else {
      assert (a + x)[1..] == a[1..] + x && (b + y)[1..] == b[1..] + y;
      TextLessHead(a[1..], b[1..], x, y);
      assert a == [a[0]] + a[1..] && b == [b[0]] + b[1..];
    }
  }

  /** The last `width` decimal digits, leading zeros included. */
  function FixedDigits(n: nat, width: nat): (s: string)
    ensures |s| == width
  {
    if width == 0 then "" else FixedDigits(n / 10, width - 1) + [DigitChar(n % 10)]
  }

  lemma {:induction false} ZerosFixed(width: nat)
    ensures FixedDigits(0, width) == Zeros(width)
  {
    if width > 0 {
      ZerosFixed(width - 1);
    }
  }

  lemma {:induction false} PaddedIsFixed(n: nat, width: nat)
    requires width > 0 && n < Power(10, width)
    ensures Padded(n, width) == FixedDigits(n, width)
  {
    WidthBound(n, 10, width);
    if n < 10 {
      ZerosFixed(width - 1);
    } else {
      WidthBound(n, 10, 1);
      assert Power(10, 1) == 10;
      PaddedIsFixed(n / 10, width - 1);
    }
  }

  lemma {:induction false} FixedDigitsOrder(m: nat, n: nat, width: nat)
    requires m < n < Power(10, width)
    ensures TextLess(FixedDigits(m, width), FixedDigits(n, width))
  {
    if width > 0 {
      TextLessHead(FixedDigits(m / 10, width - 1), FixedDigits(n / 10, width - 1),
                   [DigitChar(m % 10)], [DigitChar(n % 10)]);
      if m / 10 < n / 10 {
        FixedDigitsOrder(m / 10, n / 10, width - 1);
      }
    }
  }

  /** Two stamps of the same shape, each number within its width. */
  ghost predicate SameShape(a: seq<Field>, b: seq<Field>)
  {
    |a| == |b|
    && forall i :: 0 <= i < |a| ==>
      a[i].width == b[i].width > 0 && a[i].mark == b[i].mark
      && a[i].value < Power(10, a[i].width) && b[i].value < Power(10, a[i].width)
  }

  /** The order of two stamps by their first different number. */
  ghost predicate FieldsLess(a: seq<Field>, b: seq<Field>)
    requires |a| == |b|
  {
    a != [] && (a[0].value < b[0].value || (a[0].value == b[0].value && FieldsLess(a[1..], b[1..])))
  }

  lemma {:induction false} StampsSort(a: seq<Field>, b: seq<Field>)
    requires SameShape(a, b) && FieldsLess(a, b)
    ensures TextLess(Stamp(a), Stamp(b))
  {
    var w := a[0].width;
    PaddedIsFixed(a[0].value, w);
    PaddedIsFixed(b[0].value, w);
    var p, q := Padded(a[0].value, w), Padded(b[0].value, w);
    TextLessHead(p + [a[0].mark], q + [b[0].mark], Stamp(a[1..]), Stamp(b[1..]));
    TextLessHead(p, q, [a[0].mark], [b[0].mark]);
    if a[0].value < b[0].value {
      FixedDigitsOrder(a[0].value, b[0].value, w);
    } else {
      StampsSort(a[1..], b[1..]);
    }
  }

  /** 10000-01-01T00:00:00Z, the first instant whose year takes five digits. */
  const YEAR_TEN_THOUSAND: nat := 253_402_300_800

  lemma {:induction false} YearTenThousand()
    ensures YEAR_TEN_THOUSAND == 86_400 * 2_932_897
    ensures CivilFromDays(2_932_897) == Date(10_000, 1, 1)
  {
    DivUnique(3_652_365, 146_097, 24, 146_037);
    YearFormula(3, 24, 3, 306);
    DivUnique(399, 4, 99, 3);
    DivUnique(399, 100, 3, 99);
    DivUnique(1532, 153, 10, 2);
    DivUnique(1532, 5, 306, 2);
  }

  lemma {:induction false} YearBelow(days: nat)
    requires days < 2_932_897
    ensures CivilFromDays(days).year < 10_000
  {
    YearTenThousand();
    CivilSteps(days);
    DatesIncrease(days, 2_932_897);
  }

  lemma {:induction false} InstantShape(seconds: nat)
    requires seconds < YEAR_TEN_THOUSAND
    ensures SameShape(InstantFields(seconds), InstantFields(seconds))
  {
    CivilSteps(seconds / 86_400);
    YearBelow(seconds / 86_400);
    assert Power(10, 2) == 10 * Power(10, 1) == 100;
    assert Power(10, 4) == 10 * (10 * Power(10, 2)) == 10_000;
  }

  lemma {:induction false} LessAt(a: seq<Field>, b: seq<Field>, i: nat)
    requires |a| == |b| > i
    requires a[i].value < b[i].value && forall j :: 0 <= j < i ==> a[j].value == b[j].value
    ensures FieldsLess(a, b)
  {
    if i > 0 {
      LessAt(a[1..], b[1..], i - 1);
    }
  }

  lemma {:induction false} FieldsOfLaterDate(d: Date, e: Date, x: nat, y: nat)
    requires d.year >= 0 && e.year >= 0 && IsDate(d) && IsDate(e) && Before(d, e)
    ensures FieldsLess(FieldsOf(d, x), FieldsOf(e, y))
  {
    LessAt(FieldsOf(d, x), FieldsOf(e, y), if d.year < e.year then 0 else if d.month < e.month then 1 else 2);
  }

  lemma {:induction false} TimeParts(time: nat)
    ensures time == 3600 * (time / 3600) + 60 * ((time % 3600) / 60) + time % 60
    ensures (time % 3600) / 60 < 60 && time % 60 < 60
  {
    DivUnique(time, 60, 60 * (time / 3600) + (time % 3600) / 60, (time % 3600) % 60);
  }

  lemma {:induction false} FieldsOfLaterTime(d: Date, x: nat, y: nat)
    requires d.year >= 0 && IsDate(d) && x < y
    ensures FieldsLess(FieldsOf(d, x), FieldsOf(d, y))
  {
    TimeParts(x);
    TimeParts(y);
    LessAt(FieldsOf(d, x), FieldsOf(d, y),
           if x / 3600 < y / 3600 then 3 else if (x % 3600) / 60 < (y % 3600) / 60 then 4 else 5);
  }

  lemma {:induction false} FieldsOfLater(s: nat, t: nat)
    requires s < t
    ensures FieldsLess(InstantFields(s), InstantFields(t))
  {
    var m, n := s / 86_400, t / 86_400;
    var d := DateAt(m);
    var e := DateAt(n);
    assert InstantFields(s) == FieldsOf(d, s % 86_400) && InstantFields(t) == FieldsOf(e, t % 86_400);
    if m < n {
      DatesIncrease(m, n);
      FieldsOfLaterDate(d, e, s % 86_400, t % 86_400);
    } else {
      SameDay(s, t);
      FieldsOfLaterTime(d, s % 86_400, t % 86_400);
    }
  }

  lemma {:induction false} SameDay(s: nat, t: nat)
    requires s < t && t / 86_400 <= s / 86_400
    ensures s / 86_400 == t / 86_400 && s % 86_400 < t % 86_400
  {
  }

  lemma {:induction false} DateAt(days: nat) returns (d: Date)
    ensures d == CivilFromDays(days) && d.year >= 1970 && IsDate(d)
  {
    d := CivilFromDays(days);
    CivilSteps(days);
    YearNotNegative(days);
  }

  lemma {:induction false} InstantsSort(s: nat, t: nat)
    requires s < t < YEAR_TEN_THOUSAND
    ensures TextLess(Iso8601(s), Iso8601(t))
  {
    InstantShape(s);
    InstantShape(t);
    FieldsOfLater(s, t);
    StampsSort(InstantFields(s), InstantFields(t));
  }

  /** Sorting instants as text is sorting them in time exactly while years have four digits. */
  lemma {:induction false} InstantsSortExactlyBelow(limit: nat)
    ensures (forall s: nat, t: nat :: s < t < limit ==> TextLess(Iso8601(s), Iso8601(t)))
       <==> limit <= YEAR_TEN_THOUSAND
  {
    if limit <= YEAR_TEN_THOUSAND {
      forall s: nat, t: nat | s < t < limit
        ensures TextLess(Iso8601(s), Iso8601(t))
      {
        InstantsSort(s, t);
      }
    } else {
      FiveDigitYearSortsFirst();
    }
  }

  lemma {:induction false} FiveDigitYearSortsFirst()
    ensures !TextLess(Iso8601(0), Iso8601(YEAR_TEN_THOUSAND))
  {
    hide TextLess;
    hide Iso8601;
    Epoch();
    YearTenThousand();
    YearDigits();
    YearLeads(0, 0, "1970");
    YearLeads(YEAR_TEN_THOUSAND, 2_932_897, "10000");
    SecondCharacterDecides(Iso8601(0), Iso8601(YEAR_TEN_THOUSAND));
  }

  lemma {:induction false} YearLeads(seconds: nat, days: nat, year: string)
    requires days == seconds / 86_400
    requires CivilFromDays(days).year >= 0 && year == Padded(CivilFromDays(days).year, 4)
    ensures |year| <= |Iso8601(seconds)|
    ensures forall i :: 0 <= i < |year| ==> Iso8601(seconds)[i] == year[i]
  {
  }

  lemma {:induction false} SecondCharacterDecides(a: string, b: string)
    requires |a| >= 2 && |b| >= 2 && a[0] == b[0] && a[1] > b[1]
    ensures !TextLess(a, b)
  {
    assert !TextLess(a[1..], b[1..]);
  }

  lemma {:induction false} YearDigits()
    ensures Padded(1970, 4) == "1970" && Padded(10_000, 4) == "10000"
  {
    assert Decimal(1970) == Decimal(197) + "0" == Decimal(19) + "7" + "0";
    assert Decimal(10_000) == Decimal(1000) + "0" == Decimal(100) + "0" + "0" == Decimal(10) + "0" + "0" + "0";
  }

  ghost function Widths(fields: seq<Field>): nat
  {
    if fields == [] then 0 else fields[0].width + 1 + Widths(fields[1..])
  }

  lemma {:induction false} StampLength(fields: seq<Field>)
    requires SameShape(fields, fields)
    ensures |Stamp(fields)| == Widths(fields)
  {
    if fields != [] {
      PaddedIsFixed(fields[0].value, fields[0].width);
      StampLength(fields[1..]);
    }
  }

  /** Every instant with a four-digit year takes twenty characters, so the clock cannot change a header's length. */
  lemma {:induction false} InstantLength(seconds: nat)
    requires seconds < YEAR_TEN_THOUSAND
    ensures |Iso8601(seconds)| == 20
  {
    InstantShape(seconds);
    StampLength(InstantFields(seconds));
    var d := DateAt(seconds / 86_400);
    InstantWidths(d, seconds % 86_400);
  }

  lemma {:induction false} InstantWidths(d: Date, time: nat)
    requires d.year >= 0 && IsDate(d)
    ensures Widths(FieldsOf(d, time)) == 20
  {
    var f := FieldsOf(d, time);
    assert f[1..][1..] == f[2..] && f[2..][1..] == f[3..] && f[3..][1..] == f[4..] && f[4..][1..] == f[5..];
    assert Widths(f[5..]) == 3 && Widths(f[4..]) == 6 && Widths(f[3..]) == 9 && Widths(f[2..]) == 12;
    assert Widths(f[1..]) == 15;
  }

  // -------------------------------------------------- which text an instant has

  function InstantText(d: Date, hour: nat, minute: nat, second: nat): string
    requires d.year >= 0 && IsDate(d)
  {
    (FixedDigits(d.year, 4) + "-") + ((FixedDigits(d.month, 2) + "-") + ((FixedDigits(d.day, 2) + "T")
    + ((FixedDigits(hour, 2) + ":") + ((FixedDigits(minute, 2) + ":") + (FixedDigits(second, 2) + "Z")))))
  }

  lemma {:induction false} ClockExactly(time: nat, hour: nat, minute: nat, second: nat)
    requires time == 3600 * hour + 60 * minute + second && minute < 60 && second < 60
    ensures time / 3600 == hour && (time % 3600) / 60 == minute && time % 60 == second
  {
    DivUnique(time, 3600, hour, 60 * minute + second);
    DivUnique(60 * minute + second, 60, minute, second);
    DivUnique(time, 60, 60 * hour + minute, second);
  }

  /** An instant's text has its year, month and day, and the hours, minutes and seconds it is into the day. */
  lemma {:induction false} InstantIs(days: nat, hour: nat, minute: nat, second: nat)
    requires hour < 24 && minute < 60 && second < 60 && CivilFromDays(days).year < 10_000
    ensures var d := CivilFromDays(days);
      d.year >= 0 && IsDate(d)
      && Iso8601(86_400 * days + 3600 * hour + 60 * minute + second) == InstantText(d, hour, minute, second)
  {
    hide CivilFromDays;
    hide FixedDigits;
    hide IsDate;
    var time := 3600 * hour + 60 * minute + second;
    var seconds := 86_400 * days + time;
    DivUnique(seconds, 86_400, days, time);
    ClockExactly(time, hour, minute, second);
    var d := DateAt(days);
    assert InstantFields(seconds) == FieldsOf(d, time);
    StampIs(d, time);
  }

  /** One number of a stamp, in all its digits, and its mark. */
  function Shown(f: Field): string { FixedDigits(f.value, f.width) + [f.mark] }

  predicate FitsWidth(f: Field) { f.width > 0 && f.value < Power(10, f.width) }

  lemma {:induction false} StampThree(a: Field, b: Field, c: Field, rest: seq<Field>)
    requires FitsWidth(a) && FitsWidth(b) && FitsWidth(c)
    ensures Stamp([a, b, c] + rest) == Shown(a) + (Shown(b) + (Shown(c) + Stamp(rest)))
  {
    hide FitsWidth;
    hide Shown;
    StampOnce(c, rest);
    StampOnce(b, [c] + rest);
    StampOnce(a, [b] + ([c] + rest));
    assert [a, b, c] + rest == [a] + ([b] + ([c] + rest));
  }

  lemma {:induction false} StampOnce(f: Field, rest: seq<Field>)
    requires FitsWidth(f)
    ensures Stamp([f] + rest) == Shown(f) + Stamp(rest)
  {
    PaddedIsFixed(f.value, f.width);
    assert ([f] + rest)[1..] == rest;
  }

  lemma {:induction false} StampIs(d: Date, time: nat)
    requires 0 <= d.year < 10_000 && IsDate(d) && time < 86_400
    ensures Stamp(FieldsOf(d, time)) == InstantText(d, time / 3600, (time % 3600) / 60, time % 60)
  {
    var f := FieldsOf(d, time);
    FieldsFit(d, time);
    StampThree(f[0], f[1], f[2], f[3..]);
    StampThree(f[3], f[4], f[5], []);
    assert f == [f[0], f[1], f[2]] + f[3..] && f[3..] == [f[3], f[4], f[5]] + [];
    hide FixedDigits;
    hide FieldsOf;
    assert Shown(f[5]) + "" == Shown(f[5]);
  }

  lemma {:induction false} FieldsFit(d: Date, time: nat)
    requires 0 <= d.year < 10_000 && IsDate(d) && time < 86_400
    ensures forall f <- FieldsOf(d, time) :: FitsWidth(f)
  {
    assert Power(10, 2) == 10 * Power(10, 1) == 100;
    assert Power(10, 4) == 10 * (10 * Power(10, 2)) == 10_000;
    DivBounds(time);
  }

  lemma {:induction false} DivBounds(time: nat)
    requires time < 86_400
    ensures time / 3600 < 24 && (time % 3600) / 60 < 60 && time % 60 < 60
  {
  }

  lemma {:induction false} PublishedDate()
    ensures CivilFromDays(16_413) == Date(2014, 12, 9)
  {
    DivUnique(735_881, 146_097, 5, 5396);
    YearFormula(0, 3, 2, 283);
    DivUnique(14, 4, 3, 2);
    DivUnique(14, 100, 0, 14);
    DivUnique(1417, 153, 9, 40);
    DivUnique(1379, 5, 275, 4);
  }

  lemma {:induction false} TwoDigits(tens: nat, units: nat)
    requires tens < 10 && units < 10
    ensures FixedDigits(10 * tens + units, 2) == [DigitChar(tens), DigitChar(units)]
  {
    DivUnique(10 * tens + units, 10, tens, units);
    assert FixedDigits(tens, 1) == FixedDigits(tens / 10, 0) + [DigitChar(tens % 10)] == [DigitChar(tens)];
  }

  lemma {:induction false} FourDigits(a: nat, b: nat, c: nat, d: nat)
    requires a < 10 && b < 10 && c < 10 && d < 10
    ensures FixedDigits(1000 * a + 100 * b + 10 * c + d, 4) == [DigitChar(a), DigitChar(b), DigitChar(c), DigitChar(d)]
  {
    var three := 100 * a + 10 * b + c;
    DivUnique(10 * three + d, 10, three, d);
    DivUnique(three, 10, 10 * a + b, c);
    TwoDigits(a, b);
    assert FixedDigits(three, 3) == FixedDigits(10 * a + b, 2) + [DigitChar(c)];
  }

  /** The format's own example of an instant. */
  lemma {:induction false} PublishedInstant()
    ensures Iso8601(1_418_128_695) == "2014-" + ("12-" + ("09T" + ("12:" + ("38:" + "15Z"))))
  {
    PublishedDate();
    hide CivilFromDays;
    hide Iso8601;
    InstantIs(16_413, 12, 38, 15);
    FourDigits(2, 0, 1, 4);
    TwoDigits(1, 2);
    TwoDigits(0, 9);
    TwoDigits(3, 8);
    TwoDigits(1, 5);
    hide FixedDigits;
    assert FixedDigits(2014, 4) + "-" == "2014-" && FixedDigits(12, 2) + "-" == "12-";
    assert FixedDigits(9, 2) + "T" == "09T" && FixedDigits(12, 2) + ":" == "12:";
    assert FixedDigits(38, 2) + ":" == "38:" && FixedDigits(15, 2) + "Z" == "15Z";
  }
}
