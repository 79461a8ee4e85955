/** Date-only strings, their UTC day numbers and the past-day test. */
module CalendarDates {
  import opened IssueModel

  datatype Date = Date(year: int, month: int, day: int)

  // ----- strings

  function DigitOf(n: int): char
    requires 0 <= n < 10
  {
    "0123456789"[n]
  }

  predicate IsDigit(c: char) { '0' <= c <= '9' }

  function ValueOf(c: char): int
    requires IsDigit(c)
  {
    c as int - '0' as int
  }

  /** A number as template literals print it. */
  function Decimal(n: nat): string
  {
    if n < 10 then [DigitOf(n)] else Decimal(n / 10) + [DigitOf(n % 10)]
  }

  function Pad(n: nat): string { if n < 10 then "0" + Decimal(n) else Decimal(n) }

  /** The string of a picked day from its local calendar components. */
  function ToDateOnly(d: Date): string
    requires d.year >= 0 && d.month >= 0 && d.day >= 0
  {
    Decimal(d.year) + "-" + Pad(d.month) + "-" + Pad(d.day)
  }

  /** Four digits, two digits, two digits, at the front of the string. */
  predicate IsDateOnly(s: string)
  {
    && |s| >= 10 && s[4] == '-' && s[7] == '-'
    && IsDigit(s[0]) && IsDigit(s[1]) && IsDigit(s[2]) && IsDigit(s[3])
    && IsDigit(s[5]) && IsDigit(s[6]) && IsDigit(s[8]) && IsDigit(s[9])
  }

  function TwoDigits(a: char, b: char): int
    requires IsDigit(a) && IsDigit(b)
  {
    10 * ValueOf(a) + ValueOf(b)
  }

  /** `legacy` is what the engine's own date parser makes of a string of another shape. */
  function ParseParts(s: string, legacy: Option<Date>): Option<Date>
  {
    if IsDateOnly(s) then
      Some(Date(100 * TwoDigits(s[0], s[1]) + TwoDigits(s[2], s[3]), TwoDigits(s[5], s[6]), TwoDigits(s[8], s[9])))
    else legacy
  }

  lemma DigitValue(n: int)
    requires 0 <= n < 10
    ensures IsDigit(DigitOf(n)) && ValueOf(DigitOf(n)) == n
  {
  }

  lemma PadDigits(n: nat)
    requires n < 100
    ensures Pad(n) == [DigitOf(n / 10), DigitOf(n % 10)]
  {
    if n >= 10 { assert Decimal(n / 10) == [DigitOf(n / 10)]; }
  }

  lemma YearDigits(n: nat)
    requires 1000 <= n < 10000
    ensures Decimal(n) == [DigitOf(n / 1000), DigitOf(n / 100 % 10), DigitOf(n / 10 % 10), DigitOf(n % 10)]
  {
    var a := n / 10;
    var b := a / 10;
    var c := b / 10;
    assert b == n / 100 && c == n / 1000;
    assert Decimal(c) == [DigitOf(c)];
    assert Decimal(b) == [DigitOf(c)] + [DigitOf(b % 10)];
    assert Decimal(a) == [DigitOf(c), DigitOf(b % 10)] + [DigitOf(a % 10)];
  }

  /** Two digits read back as the number they were written from. */
  lemma ReadsPair(n: nat)
    requires n < 100
    ensures IsDigit(DigitOf(n / 10)) && IsDigit(DigitOf(n % 10)) && TwoDigits(DigitOf(n / 10), DigitOf(n % 10)) == n
  {
    DigitValue(n / 10);
    DigitValue(n % 10);
  }

  /** The four digits of a year are two such pairs. */
  lemma YearPairs(y: nat)
    requires 1000 <= y < 10000
    ensures var h, l := y / 100, y % 100;
      h < 100 && y / 1000 == h / 10 && y / 100 % 10 == h % 10 && y / 10 % 10 == l / 10 && y % 10 == l % 10
        && 100 * h + l == y
  {
    var a, b, c, d := y / 1000, y / 100 % 10, y / 10 % 10, y % 10;
    Tens(y, y / 10, d);
    Tens(y / 10, y / 100, c);
    Tens(y / 100, a, b);
    assert y == 100 * (10 * a + b) + (10 * c + d);
    assert y / 100 == 10 * a + b && y % 100 == 10 * c + d;
    Tens(10 * c + d, c, d);
  }

  lemma Tens(n: nat, q: nat, r: nat)
    requires (n == 10 * q + r && r < 10) || (q == n / 10 && r == n % 10)
    ensures n == 10 * q + r && n / 10 == q && n % 10 == r
  {
  }

  lemma DateIs(d: Date)
    requires 1000 <= d.year < 10000 && 0 <= d.month < 100 && 0 <= d.day < 100
    ensures var h, l := d.year / 100, d.year % 100;
      ToDateOnly(d) == [DigitOf(h / 10), DigitOf(h % 10), DigitOf(l / 10), DigitOf(l % 10), '-',
                        DigitOf(d.month / 10), DigitOf(d.month % 10), '-', DigitOf(d.day / 10), DigitOf(d.day % 10)]
  {
    hide Decimal, Pad, DigitOf;
    YearDigits(d.year);
    YearPairs(d.year);
    PadDigits(d.month);
    PadDigits(d.day);
  }

  /** Writing a day and reading it back gives the same day. */
  lemma DateRoundTrip(d: Date, legacy: Option<Date>)
    requires 1000 <= d.year < 10000 && 0 <= d.month < 100 && 0 <= d.day < 100
    ensures ParseParts(ToDateOnly(d), legacy) == Some(d)
  {
    hide ToDateOnly, DigitOf, IsDigit, TwoDigits;
    DateIs(d);
    YearPairs(d.year);
    ReadsPair(d.year / 100);
    ReadsPair(d.year % 100);
    ReadsPair(d.month);
    ReadsPair(d.day);
  }

  // ----- day numbers, section 21.4.1 of ECMA-262

  predicate IsLeap(y: int) { y % 4 == 0 && (y % 100 != 0 || y % 400 == 0) }

  function DaysIn(y: int, month: int): int
  {
    if month == 2 then (if IsLeap(y) then 29 else 28)
    else if month == 4 || month == 6 || month == 9 || month == 11 then 30 else 31
  }

  predicate ValidDate(d: Date) { 1 <= d.month <= 12 && 1 <= d.day <= DaysIn(d.year, d.month) }

  function DayFromYear(y: int): int
  {
    365 * (y - 1970) + (y - 1969) / 4 - (y - 1901) / 100 + (y - 1601) / 400
  }

  /** Days before the month, counted from 0, in its year. */
  function DaysBefore(y: int, month0: int): int
    requires 0 <= month0 < 12
  {
    if month0 == 0 then 0 else DaysBefore(y, month0 - 1) + DaysIn(y, month0)
  }

  /** MakeDay: months beyond the year carry into it. */
  function MakeDay(y: int, month0: int, day: int): int
  {
    var ym := y + month0 / 12;
    DayFromYear(ym) + DaysBefore(ym, month0 % 12) + day - 1
  }

  /** Date.UTC reads the years 0 to 99 as 1900 to 1999. */
  function FullYear(y: int): int { if 0 <= y <= 99 then 1900 + y else y }

  const MS_PER_DAY := 86_400_000

  function DateUTC(y: int, month0: int, day: int): int { MakeDay(FullYear(y), month0, day) * MS_PER_DAY }

  function DateOnlyToUTCDate(s: string, legacy: Option<Date>): Option<int>
  {
    if s == "" then None else
      var p := ParseParts(s, legacy);
      if p.None? then None else Some(DateUTC(p.value.year, p.value.month - 1, p.value.day))
  }

  /** `today` is the viewer's local day. */
  predicate IsPastDateOnly(s: string, legacy: Option<Date>, today: Date)
    requires today.year >= 0 && today.month >= 0 && today.day >= 0
  {
    var d := DateOnlyToUTCDate(s, legacy);
    var t := DateOnlyToUTCDate(ToDateOnly(today), None);
    d.Some? && t.Some? && d.value < t.value
  }

  // ----- order

  predicate Before(a: Date, b: Date)
  {
    a.year < b.year || (a.year == b.year && (a.month < b.month || (a.month == b.month && a.day < b.day)))
  }

  function DayNumber(d: Date): int { MakeDay(d.year, d.month - 1, d.day) }

  lemma YearLength(y: int)
    ensures DayFromYear(y + 1) == DayFromYear(y) + (if IsLeap(y) then 366 else 365)
  {
    FourthYear(y);
    HundredthYear(y);
    FourHundredthYear(y);
    Centuries(y);
  }

  /** A year divisible by 400 is divisible by 100, and one divisible by 100 by 4. */
  lemma Centuries(y: int)
    ensures y % 400 == 0 ==> y % 100 == 0
    ensures y % 100 == 0 ==> y % 4 == 0
  {
    if y % 400 == 0 { Multiple(y, 4 * (y / 400), 100); }
    if y % 100 == 0 { Multiple(y, 25 * (y / 100), 4); }
  }

  lemma Multiple(y: int, q: int, d: int)
    requires (d == 4 || d == 100) && y == d * q
    ensures y % d == 0
  {
  }

  /** The three floor terms step in the years divisible by 4, 100 and 400. */
  lemma FourthYear(y: int)
    ensures (y + 1 - 1969) / 4 == (y - 1969) / 4 + (if y % 4 == 0 then 1 else 0)
  {
  }

  lemma HundredthYear(y: int)
    ensures (y + 1 - 1901) / 100 == (y - 1901) / 100 + (if y % 100 == 0 then 1 else 0)
  {
  }

  lemma FourHundredthYear(y: int)
    ensures (y + 1 - 1601) / 400 == (y - 1601) / 400 + (if y % 400 == 0 then 1 else 0)
  {
  }

  lemma {:induction false} YearsGrow(y: int, z: int)
    requires y <= z
    ensures DayFromYear(y) <= DayFromYear(z)
    decreases z - y
  {
    if y < z {
      YearLength(y);
      YearsGrow(y + 1, z);
    }
  }

  lemma {:induction false} MonthsGrow(y: int, a: int, b: int)
    requires 0 <= a < b < 12
    ensures DaysBefore(y, a) + DaysIn(y, a + 1) <= DaysBefore(y, b)
  {
    if a + 1 < b { MonthsGrow(y, a, b - 1); }
  }

  lemma WholeYear(y: int)
    ensures DaysBefore(y, 11) + 31 == if IsLeap(y) then 366 else 365
  {
    var f := DaysIn(y, 2);
    assert DaysBefore(y, 0) == 0 && DaysBefore(y, 1) == 31 && DaysBefore(y, 2) == 31 + f && DaysBefore(y, 3) == 62 + f;
    assert DaysBefore(y, 4) == 92 + f && DaysBefore(y, 5) == 123 + f && DaysBefore(y, 6) == 153 + f;
    assert DaysBefore(y, 7) == 184 + f && DaysBefore(y, 8) == 215 + f && DaysBefore(y, 9) == 245 + f;
    assert DaysBefore(y, 10) == 276 + f && DaysBefore(y, 11) == 306 + f;
  }

  /** A valid day lies inside its own year. */
  lemma WithinYear(d: Date)
    requires ValidDate(d)
    ensures DayFromYear(d.year) <= DayNumber(d) < DayFromYear(d.year + 1)
  {
    YearLength(d.year);
    WholeYear(d.year);
    DaysBeforePositive(d.year, d.month - 1);
    if d.month < 12 { MonthsGrow(d.year, d.month - 1, 11); }
  }

  lemma {:induction false} DaysBeforePositive(y: int, m: int)
    requires 0 <= m < 12
    ensures DaysBefore(y, m) >= 0
  {
    if m > 0 { DaysBeforePositive(y, m - 1); }
  }

  /** The day number is strictly monotone in calendar order, month lengths and leap years included. */
  lemma DayNumberIsMonotone(a: Date, b: Date)
    requires ValidDate(a) && ValidDate(b) && Before(a, b)
    ensures DayNumber(a) < DayNumber(b)
  {
    if a.year < b.year {
      WithinYear(a);
      WithinYear(b);
      YearsGrow(a.year + 1, b.year);
    } else {
      SameYearIsMonotone(a, b);
    }
  }

  lemma SameYearIsMonotone(a: Date, b: Date)
    requires ValidDate(a) && ValidDate(b) && Before(a, b) && a.year == b.year
    ensures DayNumber(a) < DayNumber(b)
  {
    hide DayFromYear;
    if a.month < b.month {
      hide DaysBefore, DaysIn;
      MonthsGrow(a.year, a.month - 1, b.month - 1);
    }
  }

  lemma DayNumberOrders(a: Date, b: Date)
    requires ValidDate(a) && ValidDate(b)
    ensures DayNumber(a) < DayNumber(b) <==> Before(a, b)
  {
    if Before(a, b) {
      DayNumberIsMonotone(a, b);
    } else if Before(b, a) {
      DayNumberIsMonotone(b, a);
    } else {
      assert a == b;
    }
  }

  function Widened(d: Date): Date { d.(year := FullYear(d.year)) }

  /** For every date-only string of a valid day, in the years as Date.UTC reads them, the test is calendar order. */
  lemma PastIsBefore(s: string, legacy: Option<Date>, today: Date)
    requires IsDateOnly(s) && ValidDate(today) && 1000 <= today.year < 10000
    requires ValidDate(Widened(ParseParts(s, legacy).value))
    ensures IsPastDateOnly(s, legacy, today) <==> Before(Widened(ParseParts(s, legacy).value), today)
  {
    var d := Widened(ParseParts(s, legacy).value);
    TodayIs(today);
    assert DateOnlyToUTCDate(s, legacy) == Some(DayNumber(d) * MS_PER_DAY);
    DayNumberOrders(d, today);
  }

  lemma TodayIs(today: Date)
    requires ValidDate(today) && 1000 <= today.year < 10000
    ensures DateOnlyToUTCDate(ToDateOnly(today), None) == Some(DayNumber(today) * MS_PER_DAY)
  {
    DateRoundTrip(today, None);
    YearDigits(today.year);
  }

  /** Against the day written in the string, the test is right exactly unless the year has two digits and its
      namesake of the 1900s is not past. */
  lemma PastIsRightExactly(s: string, legacy: Option<Date>, today: Date)
    requires IsDateOnly(s) && ValidDate(today) && 1000 <= today.year < 10000
    requires ValidDate(ParseParts(s, legacy).value) && ValidDate(Widened(ParseParts(s, legacy).value))
    ensures var d := ParseParts(s, legacy).value;
      (IsPastDateOnly(s, legacy, today) <==> Before(d, today)) <==>
        (d.year >= 100 || Before(d.(year := 1900 + d.year), today))
  {
    PastIsBefore(s, legacy, today);
  }

  /** Days written by the app itself, years 1000 to 9999, compare in calendar order. */
  lemma WrittenDaysCompare(d: Date, today: Date)
    requires ValidDate(d) && 1000 <= d.year < 10000 && ValidDate(today) && 1000 <= today.year < 10000
    ensures IsPastDateOnly(ToDateOnly(d), None, today) <==> Before(d, today)
  {
    var s := ToDateOnly(d);
    DateRoundTrip(d, None);
    PastIsBefore(s, None, today);
  }

  // ----- the instants

  /** The day after, in the calendar. */
  function NextDay(d: Date): Date
  {
    if d.day < DaysIn(d.year, d.month) then d.(day := d.day + 1)
    else if d.month < 12 then Date(d.year, d.month + 1, 1)
    else Date(d.year + 1, 1, 1)
  }

  /** The day before, in the calendar. */
  function PrevDay(d: Date): Date
  {
    if d.day > 1 then d.(day := d.day - 1)
    else if d.month > 1 then Date(d.year, d.month - 1, DaysIn(d.year, d.month - 1))
    else Date(d.year - 1, 12, 31)
  }

  /** The calendar day so many days after 1 January 1970, counted day by day. */
  function DayAfterEpoch(n: int): Date
    decreases if n < 0 then -n else n
  {
    if n == 0 then Date(1970, 1, 1)
    else if n > 0 then NextDay(DayAfterEpoch(n - 1))
    else PrevDay(DayAfterEpoch(n + 1))
  }

  lemma NextDayNumber(d: Date)
    requires ValidDate(d)
    ensures ValidDate(NextDay(d)) && DayNumber(NextDay(d)) == DayNumber(d) + 1 && PrevDay(NextDay(d)) == d
  {
    if d.day == DaysIn(d.year, d.month) && d.month == 12 { NewYear(d.year); }
  }

  /** New Year's Day comes after New Year's Eve. */
  lemma NewYear(y: int)
    ensures DayNumber(Date(y + 1, 1, 1)) == DayNumber(Date(y, 12, 31)) + 1
  {
    YearLength(y);
    WholeYear(y);
    assert DaysBefore(y + 1, 0) == 0;
  }

  lemma PrevDayNumber(d: Date)
    requires ValidDate(d)
    ensures ValidDate(PrevDay(d)) && DayNumber(PrevDay(d)) == DayNumber(d) - 1 && NextDay(PrevDay(d)) == d
  {
    if d.day == 1 && d.month == 1 { NewYear(d.year - 1); }
  }

  lemma EpochNumber()
    ensures ValidDate(Date(1970, 1, 1)) && DayNumber(Date(1970, 1, 1)) == 0
  {
    assert DaysBefore(1970, 0) == 0 && DayFromYear(1970) == 0;
  }

  lemma EpochIsDayZero(d: Date)
    requires ValidDate(d) && DayNumber(d) == 0
    ensures d == Date(1970, 1, 1)
  {
    hide DayNumber, ValidDate;
    var epoch := Date(1970, 1, 1);
    EpochNumber();
    DayNumberOrders(d, epoch);
    DayNumberOrders(epoch, d);
  }

  /** Counting days from the epoch leads to the day with that number. */
  lemma {:induction false} CountedDay(d: Date, n: int)
    requires ValidDate(d) && DayNumber(d) == n
    ensures DayAfterEpoch(n) == d
    decreases if n < 0 then -n else n
  {
    hide DayNumber, ValidDate, NextDay, PrevDay;
    if n == 0 {
      EpochIsDayZero(d);
    } else if n > 0 {
      PrevDayNumber(d);
      CountedDay(PrevDay(d), n - 1);
    } else {
      NextDayNumber(d);
      CountedDay(NextDay(d), n + 1);
    }
  }

  /** The instant of a day is its midnight, UTC: as many days of 86 400 000 milliseconds as the calendar counts from
      1 January 1970. So the day can be read back from the instant. */
  lemma InstantReadsBack(d: Date)
    requires ValidDate(d) && !(0 <= d.year <= 99)
    ensures var t := DateUTC(d.year, d.month - 1, d.day);
      t % 86_400_000 == 0 && DayAfterEpoch(t / 86_400_000) == d
  {
    var t := DateUTC(d.year, d.month - 1, d.day);
    WholeDays(t, DayNumber(d));
    CountedDay(d, DayNumber(d));
  }

  lemma WholeDays(t: int, n: int)
    requires t == n * 86_400_000
    ensures t % 86_400_000 == 0 && t / 86_400_000 == n
  {
  }

  /** A date-only string of a valid day gives the midnight of that day, two-digit years being those of the 1900s. */
  lemma DateOnlyIsMidnight(s: string, legacy: Option<Date>)
    requires IsDateOnly(s) && ValidDate(Widened(ParseParts(s, legacy).value))
    ensures var t, d := DateOnlyToUTCDate(s, legacy), ParseParts(s, legacy).value;
      && t.Some? && t.value % 86_400_000 == 0
      && DayAfterEpoch(t.value / 86_400_000) == if d.year < 100 then d.(year := 1900 + d.year) else d
  {
    var d := Widened(ParseParts(s, legacy).value);
    InstantReadsBack(d);
  }

  /** Days and months beyond their end run on: the 30th of February is the 2nd or 1st of March, the 13th month is the
      next January. */
  lemma DatesRunOn(y: int, month0: int, day: int)
    requires !(0 <= y <= 99) && 0 <= month0 < 12
    ensures DateUTC(y, month0, day + 1) == DateUTC(y, month0, day) + 86_400_000
    ensures month0 < 11 ==> DateUTC(y, month0 + 1, 1) == DateUTC(y, month0, DaysIn(y, month0 + 1) + 1)
    ensures !(0 <= y + 1 <= 99) ==> DateUTC(y, 12 + month0, day) == DateUTC(y + 1, month0, day)
  {
    MonthsCarry(y, month0);
    hide DayFromYear;
    assert MakeDay(y, month0, day + 1) == MakeDay(y, month0, day) + 1;
    if month0 < 11 { assert DaysBefore(y, month0 + 1) == DaysBefore(y, month0) + DaysIn(y, month0 + 1); }
  }

  lemma MonthsCarry(y: int, month0: int)
    requires 0 <= month0 < 12
    ensures y + month0 / 12 == y && month0 % 12 == month0
    ensures y + (12 + month0) / 12 == y + 1 && (12 + month0) % 12 == month0
  {
  }

  /** What follows the ten characters of a date does not matter, as in a full timestamp. */
  lemma RestIsIgnored(s: string, rest: string, legacy: Option<Date>)
    requires IsDateOnly(s)
    ensures DateOnlyToUTCDate(s + rest, legacy) == DateOnlyToUTCDate(s, legacy)
  {
  }
}
