/** Models src/modules/billing/billing-date.util.ts: day arithmetic over
    'YYYY-MM-DD' dates. The calendar follows section 21.4.1 of ECMA-262. */
module BillingDate {
  import opened Wrappers
  import opened Text

  // --- The calendar ---------------------------------------------------------

  predicate IsLeap(y: int) { (y % 4 == 0 && y % 100 != 0) || y % 400 == 0 }

  function DaysInYear(y: int): int { if IsLeap(y) then 366 else 365 }

  /** The day number of 1 January of year `y`, counting from 1 January 1970, which is day 0. */
  function DayFromYear(y: int): int
    decreases if y < 1970 then 1970 - y else y - 1970
  {
    if y == 1970 then 0
    else if y > 1970 then DayFromYear(y - 1) + DaysInYear(y - 1)
    else DayFromYear(y + 1) - DaysInYear(y)
  }

  function MonthLength(y: int, m: nat): nat
    requires m < 12
  {
    if m == 1 then if IsLeap(y) then 29 else 28
    else if m == 3 || m == 5 || m == 8 || m == 10 then 30
    else 31
  }

  /** Days before month `m` (0 = January) of year `y`. */
  function MonthStart(y: int, m: nat): nat
    requires m <= 12
  {
    if m == 0 then 0 else MonthStart(y, m - 1) + MonthLength(y, m - 1)
  }

  /** A calendar date; months count from 0, as `Date.getMonth()` does. */
  datatype Date = Date(year: int, month: nat, day: nat) {
    predicate Valid() { month < 12 && 1 <= day <= MonthLength(year, month) }
  }

  type ValidDate = c: Date | c.Valid() witness Date(1970, 0, 1)

  /** The day number of day `d` of a month; days outside the month carry over. */
  function DayOf(y: int, m: nat, d: int): int
    requires m < 12
  {
    DayFromYear(y) + MonthStart(y, m) + d - 1
  }

  /** `MakeDay`: months outside 0 to 11 carry over too. */
  function MakeDay(y: int, m: int, d: int): int {
    DayOf(y + m / 12, m % 12, d)
  }

  function DayNumber(c: Date): int
    requires c.Valid()
  {
    DayOf(c.year, c.month, c.day)
  }

  lemma YearStep(y: int)
    ensures DayFromYear(y + 1) == DayFromYear(y) + DaysInYear(y)
  {}

  /** Counting years gives the closed form of `DayFromYear` in ECMA-262. */
  lemma {:induction false} DayFromYearClosedForm(y: int)
    ensures DayFromYear(y) == 365 * (y - 1970) + (y - 1969) / 4 - (y - 1901) / 100 + (y - 1601) / 400
    decreases if y < 1970 then 1970 - y else y - 1970
  {
    if y > 1970 {
      DayFromYearClosedForm(y - 1);
      LeapDayCount(y - 1);
    } else if y < 1970 {
      DayFromYearClosedForm(y + 1);
      LeapDayCount(y);
    }
  }

  lemma LeapDayCount(y: int)
    ensures (y - 1968) / 4 - (y - 1900) / 100 + (y - 1600) / 400 ==
            (y - 1969) / 4 - (y - 1901) / 100 + (y - 1601) / 400 + if IsLeap(y) then 1 else 0
  {
    FloorStep(y, 4, 492);
    FloorStep(y, 100, 19);
    FloorStep(y, 400, 4);
    CenturyIsFourth(y);
  }

  lemma CenturyIsFourth(y: int)
    ensures y % 400 == 0 ==> y % 100 == 0
    ensures y % 100 == 0 ==> y % 4 == 0
  {
    if y % 400 == 0 { MultipleOf(y, 100, 4 * (y / 400)); }
    if y % 100 == 0 { MultipleOf(y, 4, 25 * (y / 100)); }
  }

  lemma MultipleOf(y: int, n: int, q: int)
    requires (n == 4 || n == 100) && y == n * q
    ensures y % n == 0
  {}

  lemma FloorStep(y: int, n: int, q: int)
    requires n == 4 || n == 100 || n == 400
    ensures (y - n * q) / n == (y - n * q - 1) / n + if y % n == 0 then 1 else 0
  {
    FloorShift(y, n, q);
    FloorShift(y - 1, n, q);
  }

  lemma FloorShift(y: int, n: int, q: int)
    requires n == 4 || n == 100 || n == 400
    ensures (y - n * q) / n == y / n - q
  {}

  /** The months of a year, cumulated as in the table of ECMA-262. */
  lemma MonthStartTable(y: int, m: nat)
    requires m <= 12
    ensures MonthStart(y, m) ==
            [0, 31, 59, 90, 120, 151, 181, 212, 243, 273, 304, 334, 365][m] + if IsLeap(y) && m >= 2 then 1 else 0
  {
    if m > 0 { MonthStartTable(y, m - 1); }
  }

  lemma {:induction false} YearsIncrease(y: int, z: int)
    requires y <= z
    ensures DayFromYear(y) + 365 * (z - y) <= DayFromYear(z)
    decreases z - y
  {
    if y < z {
      YearStep(y);
      YearsIncrease(y + 1, z);
    }
  }

  /** The year day `n` falls in, searching from the estimate `y`. */
  function YearNear(n: int, y: int): (r: int)
    ensures DayFromYear(r) <= n < DayFromYear(r + 1)
    decreases
      if n < DayFromYear(y) then DayFromYear(y) - n
      else if n < DayFromYear(y + 1) then 0
      else n - DayFromYear(y + 1) + 1
  {
    YearStep(y);
    YearStep(y - 1);
    YearStep(y + 1);
    if n < DayFromYear(y) then YearNear(n, y - 1)
    else if n >= DayFromYear(y + 1) then YearNear(n, y + 1)
    else y
  }

  /** The month of year `y` holding its day `k`, counting down from month `m`. */
  function MonthBelow(y: int, k: nat, m: nat): (r: nat)
    requires m < 12 && k < MonthStart(y, m + 1)
    ensures r < 12 && MonthStart(y, r) <= k < MonthStart(y, r + 1)
  {
    if k < MonthStart(y, m) then MonthBelow(y, k, m - 1) else m
  }

  /** The UTC year, month and day of day number `n`. */
  function DateOf(n: int): (c: Date)
    ensures c.Valid()
  {
    var y := YearNear(n, 1970 + n / 365);
    YearStep(y);
    MonthStartTable(y, 12);
    var k := n - DayFromYear(y);
    var m := MonthBelow(y, k, 11);
    Date(y, m, k - MonthStart(y, m) + 1)
  }

  /** Day numbers and valid dates correspond one to one. */
  lemma DateOfInverse(n: int)
    ensures DateOf(n).Valid() && DayNumber(DateOf(n)) == n
  {}

  lemma {:induction false} MonthStartsIncrease(y: int, l: nat, m: nat)
    requires l <= m <= 12
    ensures MonthStart(y, l) + 28 * (m - l) <= MonthStart(y, m)
    decreases m - l
  {
    if l < m { MonthStartsIncrease(y, l, m - 1); }
  }

  lemma DayInYear(c: Date)
    requires c.Valid()
    ensures DayFromYear(c.year) <= DayNumber(c) < DayFromYear(c.year + 1)
  {
    YearStep(c.year);
    MonthStartTable(c.year, 12);
    MonthStartsIncrease(c.year, c.month + 1, 12);
  }

  ghost predicate Before(a: Date, b: Date) {
    a.year < b.year || (a.year == b.year && (a.month < b.month || (a.month == b.month && a.day < b.day)))
  }

  /** Day numbers order dates by year, then month, then day. */
  lemma DayNumberOrder(a: Date, b: Date)
    requires a.Valid() && b.Valid() && Before(a, b)
    ensures DayNumber(a) < DayNumber(b)
  {
    DayInYear(a);
    DayInYear(b);
    if a.year < b.year {
      YearsIncrease(a.year + 1, b.year);
    } else if a.month < b.month {
      MonthStartsIncrease(a.year, a.month + 1, b.month);
    }
  }

  lemma DayNumberInjective(a: Date, b: Date)
    requires a.Valid() && b.Valid() && DayNumber(a) == DayNumber(b)
    ensures a == b
  {
    if a != b {
      if Before(a, b) { DayNumberOrder(a, b); } else { DayNumberOrder(b, a); }
    }
  }

  lemma DateOfDayNumber(c: Date)
    requires c.Valid()
    ensures DateOf(DayNumber(c)) == c
  {
    DateOfInverse(DayNumber(c));
    DayNumberInjective(DateOf(DayNumber(c)), c);
  }

  /** The day after `c`, read off the calendar. */
  function NextDay(c: Date): Date
    requires c.Valid()
  {
    if c.day < MonthLength(c.year, c.month) then c.(day := c.day + 1)
    else if c.month < 11 then Date(c.year, c.month + 1, 1)
    else Date(c.year + 1, 0, 1)
  }

  // --- The operations on dates ----------------------------------------------

  /** What `setUTCDate(getUTCDate() + k)` does to a date. */
  function PlusDays(c: Date, k: int): (r: Date)
    requires c.Valid()
    ensures r.Valid()
  {
    DateOf(DayOf(c.year, c.month, c.day + k))
  }

  function DaysBetween(c: Date, reference: Date): int
    requires c.Valid() && reference.Valid()
  {
    DayNumber(c) - DayNumber(reference)
  }

  lemma NextDayNumber(c: Date)
    requires c.Valid()
    ensures NextDay(c).Valid() && DayNumber(NextDay(c)) == DayNumber(c) + 1
  {
    hide IsLeap;
    YearStep(c.year);
    MonthStartTable(c.year, 12);
  }

  /** Adding days counts calendar days: zero days is no change, one more day is the next date. */
  lemma PlusDaysSteps(c: Date, k: int)
    requires c.Valid()
    ensures PlusDays(c, 0) == c
    ensures PlusDays(c, k).Valid() && PlusDays(c, k + 1) == NextDay(PlusDays(c, k))
  {
    hide DateOf, NextDay;
    DateOfDayNumber(c);
    DateOfInverse(DayNumber(c) + k);
    NextDayNumber(DateOf(DayNumber(c) + k));
    DateOfDayNumber(NextDay(DateOf(DayNumber(c) + k)));
  }

  lemma PlusDaysLaws(c: Date, a: int, b: int)
    requires c.Valid()
    ensures PlusDays(c, a).Valid()
    ensures DaysBetween(PlusDays(c, a), c) == a
    ensures PlusDays(PlusDays(c, a), b) == PlusDays(c, a + b)
  {
    hide DateOf, IsLeap, MonthLength;
    DateOfInverse(DayNumber(c) + a);
  }

  /** Moving a date moves its distance to any other date by as much. */
  lemma PlusDaysShifts(c: Date, k: int, reference: Date)
    requires c.Valid() && reference.Valid()
    ensures PlusDays(c, k).Valid() && DaysBetween(PlusDays(c, k), reference) == DaysBetween(c, reference) + k
  {
    hide DateOf, IsLeap, MonthLength;
    DateOfInverse(DayNumber(c) + k);
  }

  lemma PlusDaysBetween(c: Date, d: Date)
    requires c.Valid() && d.Valid()
    ensures PlusDays(c, DaysBetween(d, c)) == d
  {
    hide DateOf, IsLeap, MonthLength;
    DateOfDayNumber(d);
  }

  // --- The operations on text -----------------------------------------------

  function IntegerText(n: int): string {
    if n < 0 then "-" + Digits(-n) else Digits(n)
  }

  function ToDateString(year: int, month: nat, day: nat): string {
    IntegerText(year) + "-" + PadStart(Digits(month + 1), 2) + "-" + PadStart(Digits(day), 2)
  }

  function DateText(c: Date): string { ToDateString(c.year, c.month, c.day) }

  /** `Number(s)` on the numerals a date can hold; anything else is not a number here. */
  function Number(s: string): Option<int> {
    if AllDigits(s) then Some(Value(s)) else None
  }

  /** `Date.UTC` and `new Date` read the years 0 to 99 as 1900 to 1999. */
  function FullYear(y: int): int { if 0 <= y <= 99 then 1900 + y else y }

  /** The day number of the date a text names, or None for an invalid date. */
  function ParseDateOnly(s: string): Option<int> {
    var parts := Split(s, '-');
    if |parts| < 3 then None
    else
      match (Number(parts[0]), Number(parts[1]), Number(parts[2]))
      case (Some(y), Some(m), Some(d)) => Some(MakeDay(FullYear(y), m - 1, d))
      case _ => None
  }

  function DaysBetweenText(dateStr: string, referenceStr: string): Option<int> {
    match (ParseDateOnly(dateStr), ParseDateOnly(referenceStr))
    case (Some(n), Some(m)) => Some(n - m)
    case _ => None
  }

  function AddDaysText(dateStr: string, days: int): Option<string> {
    match ParseDateOnly(dateStr)
    case Some(n) => Some(DateText(DateOf(n + days)))
    case None => None
  }

  /** `new Date(year, month + 1, 0).getDate()`. */
  function DaysInMonth(year: int, month: int): nat {
    DateOf(MakeDay(FullYear(year), month + 1, 0)).day
  }

  function ResolveBillingDayForMonth(year: int, month: int, billingDay: int): int {
    if billingDay < DaysInMonth(year, month) then billingDay else DaysInMonth(year, month)
  }

  /** Day 0 of the next month is the last day of this one. */
  lemma DaysInMonthIsLength(year: int, month: nat)
    requires month < 12
    ensures DaysInMonth(year, month) == MonthLength(FullYear(year), month)
  {
    hide IsLeap, DateOf;
    var y := FullYear(year);
    var last := Date(y, month, MonthLength(y, month));
    YearStep(y);
    MonthStartTable(y, 12);
    assert MakeDay(y, month + 1, 0) == DayNumber(last) by {
      if month == 11 {
        assert (month + 1) / 12 == 1 && (month + 1) % 12 == 0;
      } else {
        assert (month + 1) / 12 == 0 && (month + 1) % 12 == month + 1;
      }
    }
    DateOfDayNumber(last);
  }

  lemma TwoDigits(n: nat)
    requires n < 100
    ensures |PadStart(Digits(n), 2)| == 2 && AllDigits(PadStart(Digits(n), 2)) && Value(PadStart(Digits(n), 2)) == n
  {
    DigitsFit(n, 2);
    assert Pow10(2) == 10 * Pow10(1) == 100 * Pow10(0);
    PadStartValue(Digits(n), 2);
    DigitsValue(n);
  }

  lemma SplitDateText(c: Date)
    requires c.Valid() && c.year >= 0
    ensures ParseDateOnly(DateText(c)) == Some(MakeDay(FullYear(c.year), c.month, c.day))
  {
    hide MakeDay, PadStart, Digits, IsLeap;
    var y, m, d := Digits(c.year), PadStart(Digits(c.month + 1), 2), PadStart(Digits(c.day), 2);
    TwoDigits(c.month + 1);
    TwoDigits(c.day);
    DigitsValue(c.year);
    assert DateText(c) == y + ['-'] + (m + ['-'] + d);
    SplitPiece(y, '-', m + ['-'] + d);
    SplitPiece(m, '-', d);
    SplitLast(d, '-');
    assert Split(DateText(c), '-') == [y, m, d];
  }

  /** Reading a printed date gives its day back from the year 100 on, and only from there. */
  lemma ParseUndoesPrint(c: Date)
    requires c.Valid() && c.year >= 0
    ensures ParseDateOnly(DateText(c)) == Some(DayNumber(c)) <==> c.year >= 100
  {
    hide ParseDateOnly, DateText, MonthLength;
    SplitDateText(c);
    if c.year < 100 {
      DayInYear(c);
      YearsIncrease(c.year + 1, 1900 + c.year);
      assert MakeDay(FullYear(c.year), c.month, c.day) >= DayFromYear(1900 + c.year);
    }
  }

  /** The text operations compute the calendar ones. */
  lemma TextRefinesCalendar(c: Date, d: Date, k: int)
    requires c.Valid() && d.Valid() && c.year >= 100 && d.year >= 100
    ensures DaysBetweenText(DateText(c), DateText(d)) == Some(DaysBetween(c, d))
    ensures AddDaysText(DateText(c), k) == Some(DateText(PlusDays(c, k)))
  {
    hide ParseDateOnly, DateText, DateOf;
    ParseUndoesPrint(c);
    ParseUndoesPrint(d);
  }

  /** The promised laws, on text: a difference undoes an addition and additions compose. */
  lemma AddDaysTextLaws(c: Date, a: int, b: int)
    requires c.Valid() && c.year >= 100 && PlusDays(c, a).year >= 100
    ensures AddDaysText(DateText(c), a).Some?
    ensures DaysBetweenText(AddDaysText(DateText(c), a).value, DateText(c)) == Some(a)
    ensures AddDaysText(AddDaysText(DateText(c), a).value, b) == AddDaysText(DateText(c), a + b)
  {
    hide ParseDateOnly, DateText, DateOf, DayNumber, DayOf, AddDaysText, DaysBetweenText;
    PlusDaysLaws(c, a, b);
    TextRefinesCalendar(c, c, a);
    TextRefinesCalendar(c, c, a + b);
    TextRefinesCalendar(PlusDays(c, a), c, b);
  }

  lemma OrderOfSameWidth(a: Date, b: Date)
    requires a.Valid() && b.Valid() && a.year >= 0 && b.year >= 0 && |Digits(a.year)| == |Digits(b.year)|
    ensures Less(DateText(a), DateText(b)) <==> Before(a, b)
  {
    hide DayNumber, Digits, PadStart, Value;
    DigitsValue(a.year); DigitsValue(b.year);
    TwoDigits(a.month + 1); TwoDigits(b.month + 1);
    TwoDigits(a.day); TwoDigits(b.day);
    var (aY, aM, aD) := (Digits(a.year), PadStart(Digits(a.month + 1), 2), PadStart(Digits(a.day), 2));
    var (bY, bM, bD) := (Digits(b.year), PadStart(Digits(b.month + 1), 2), PadStart(Digits(b.day), 2));
    assert DateText(a) == aY + ("-" + (aM + ("-" + aD)));
    assert DateText(b) == bY + ("-" + (bM + ("-" + bD)));
    LessAppend(aY, bY, "-" + (aM + ("-" + aD)), "-" + (bM + ("-" + bD)));
    LessAppend("-", "-", aM + ("-" + aD), bM + ("-" + bD));
    LessAppend(aM, bM, "-" + aD, "-" + bD);
    LessAppend("-", "-", aD, bD);
    LessDigits(aY, bY); LessDigits(aM, bM); LessDigits(aD, bD);
  }

  lemma BeforeIsDaysBetween(a: Date, b: Date)
    requires a.Valid() && b.Valid()
    ensures Before(a, b) <==> DaysBetween(a, b) < 0
    ensures a == b <==> DaysBetween(a, b) == 0
  {
    hide DayNumber;
    if Before(a, b) { DayNumberOrder(a, b); }
    if Before(b, a) { DayNumberOrder(b, a); }
  }

  /** Comparing dates whose years have as many digits as strings compares them as dates. */
  lemma StringOrderIsDateOrder(a: Date, b: Date)
    requires a.Valid() && b.Valid() && a.year >= 0 && b.year >= 0 && |Digits(a.year)| == |Digits(b.year)|
    ensures Less(DateText(a), DateText(b)) <==> DaysBetween(a, b) < 0
    ensures DateText(a) == DateText(b) <==> DaysBetween(a, b) == 0
  {
    hide DateText, Less, DaysBetween, Digits;
    OrderOfSameWidth(a, b);
    OrderOfSameWidth(b, a);
    BeforeIsDaysBetween(a, b);
  }

  /** Between the years `lo` and `hi` string order is date order. */
  ghost predicate OrderedAsDates(lo: nat, hi: nat) {
    forall a: ValidDate, b: ValidDate :: lo <= a.year <= hi && lo <= b.year <= hi ==>
      (Less(DateText(a), DateText(b)) <==> DaysBetween(a, b) < 0)
  }

  /** String order is date order on a range of years if and only if its first and last year have as many
      digits. */
  lemma StringOrderExactly(lo: nat, hi: nat)
    requires lo <= hi
    ensures OrderedAsDates(lo, hi) <==> |Digits(lo)| == |Digits(hi)|
  {
    hide DateText, Less, DaysBetween, Digits;
    var k := |Digits(lo)|;
    DigitsFit(lo, k);
    DigitsFit(hi, k);
    if k == |Digits(hi)| {
      forall a: ValidDate, b: ValidDate | lo <= a.year <= hi && lo <= b.year <= hi
        ensures Less(DateText(a), DateText(b)) <==> DaysBetween(a, b) < 0
      {
        SameWidth(lo, a.year, hi);
        SameWidth(lo, b.year, hi);
        StringOrderIsDateOrder(a, b);
      }
    } else {
      SameOrMore(lo, hi);
      StringOrderFailsAt(k);
      var a: ValidDate, b: ValidDate := Date(Pow10(k) - 1, 11, 31), Date(Pow10(k), 0, 1);
      assert !(Less(DateText(a), DateText(b)) <==> DaysBetween(a, b) < 0);
    }
  }

  lemma FourDigits(y: nat)
    requires 1000 <= y <= 9999
    ensures |Digits(y)| == 4
  {
    DigitsFit(y, 4);
    DigitsFit(y, 3);
    assert Pow10(4) == 10 * Pow10(3) == 100 * Pow10(2) == 1000 * Pow10(1) == 10000 * Pow10(0);
  }

  /** So it is on all four-digit years, and on no range that goes on to them from 999. */
  lemma FourDigitYears(hi: nat)
    requires hi >= 1000
    ensures OrderedAsDates(1000, 9999) && !OrderedAsDates(999, hi)
  {
    hide OrderedAsDates, Digits;
    FourDigits(1000);
    FourDigits(9999);
    StringOrderExactly(1000, 9999);
    StringOrderExactly(999, hi);
    DigitsFit(999, 3);
    DigitsFit(hi, 3);
    assert Pow10(3) == 10 * Pow10(2) == 100 * Pow10(1) == 1000 * Pow10(0);
  }

  lemma SameWidth(lo: nat, y: nat, hi: nat)
    requires lo <= y <= hi && |Digits(lo)| == |Digits(hi)|
    ensures |Digits(y)| == |Digits(lo)|
  {
    SameOrMore(lo, y);
    SameOrMore(y, hi);
  }

  lemma SameOrMore(y: nat, z: nat)
    requires y <= z
    ensures |Digits(y)| <= |Digits(z)|
  {
    DigitsFit(y, |Digits(z)|);
    DigitsFit(z, |Digits(z)|);
  }

  /** The last day of a year of nines comes after the next day in string order. */
  lemma StringOrderFailsAt(k: nat)
    requires k >= 1
    ensures var a, b := Date(Pow10(k) - 1, 11, 31), Date(Pow10(k), 0, 1);
      a.Valid() && b.Valid() && DaysBetween(a, b) == -1 && !Less(DateText(a), DateText(b))
  {
    hide Less, PadStart, Digits, Pow10, IsLeap, DayNumber;
    var a, b := Date(Pow10(k) - 1, 11, 31), Date(Pow10(k), 0, 1);
    NextDayNumber(a);
    FirstDigits(k);
    assert DateText(a)[0] == '9' && DateText(b)[0] == '1';
    LessHead(DateText(a), DateText(b));
  }

  /** For one, 31 December 999 against the day after. */
  lemma StringOrderFailsBefore1000()
    ensures var a, b := Date(999, 11, 31), Date(1000, 0, 1);
      a.Valid() && b.Valid() && DaysBetween(a, b) == -1 && !Less(DateText(a), DateText(b))
  {
    hide Less, DateText, DaysBetween;
    StringOrderFailsAt(3);
    assert Pow10(3) == 10 * Pow10(2) == 100 * Pow10(1) == 1000 * Pow10(0);
  }

  lemma {:induction false} FirstDigits(k: nat)
    requires k >= 1
    ensures Digits(Pow10(k) - 1)[0] == '9' && Digits(Pow10(k))[0] == '1'
  {
    assert Pow10(k) == 10 * Pow10(k - 1);
    if k == 1 {
      assert Digits(10) == Digits(1) + [DigitChar(0)];
    } else {
      FirstDigits(k - 1);
      LastDigit(Pow10(k - 1), 0);
      LastDigit(Pow10(k - 1) - 1, 9);
    }
  }

  lemma LastDigit(n: nat, d: nat)
    requires n > 0 && d < 10
    ensures Digits(10 * n + d) == Digits(n) + [DigitChar(d)]
  {}

  lemma LessHead(a: string, b: string)
    requires a != "" && b != "" && a[0] > b[0]
    ensures !Less(a, b)
  {}

  /** A JavaScript date at UTC midnight, as `addDays` moves it in place. */
  class UtcDate {
    var day: int

    constructor (day: int)
      ensures this.day == day
    {
      this.day := day;
    }

    /** `setUTCDate(date)`: the given day of the month this date is in. */
    method SetUTCDate(date: int)
      modifies this
      ensures day == old(day) - DateOf(old(day)).day + date
    {
      var c := DateOf(day);
      DateOfInverse(day);
      day := DayOf(c.year, c.month, date);
    }
  }

  method AddDays(dateStr: string, days: int) returns (r: Option<string>)
    ensures r == AddDaysText(dateStr, days)
  {
    hide DateOf, ParseDateOnly, PadStart, Digits;
    var parsed := ParseDateOnly(dateStr);
    if parsed.None? { return None; }
    var date := new UtcDate(parsed.value);
    date.SetUTCDate(DateOf(date.day).day + days);
    var c := DateOf(date.day);
    r := Some(IntegerText(c.year) + "-" + PadStart(Digits(c.month + 1), 2) + "-" + PadStart(Digits(c.day), 2));
  }

  // --- Proration day counts ---------------------------------------------------

  datatype ProrationDayCountPolicy = FIXED_30 | ACTUAL_MONTH_DAYS | CYCLE_DAYS

  function ResolveProrationDayCount(policy: ProrationDayCountPolicy, periodStart: Date, periodEnd: Date): int
    requires periodStart.Valid() && periodEnd.Valid()
  {
    if policy == FIXED_30 then 30 else DaysBetween(periodEnd, periodStart) + 1
  }

  /** Over a calendar month, the two policies that count real days give the length of the month. */
  lemma CountedDaysAreMonthDays(policy: ProrationDayCountPolicy, year: int, month: nat)
    requires month < 12 && year >= 100
    ensures var first, last := Date(year, month, 1), Date(year, month, DaysInMonth(year, month));
      first.Valid() && last.Valid() &&
      ResolveProrationDayCount(policy, first, last) == if policy == FIXED_30 then 30 else DaysInMonth(year, month)
  {
    DaysInMonthIsLength(year, month);
  }
}
