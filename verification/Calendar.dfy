/** The Gregorian calendar of `DateTime`: day numbers, their inverse, days of the week
    and week numbers. A day number counts from the day before 1 March of the year 0, so that
    the Julian day at midnight is the day number plus 1721118.5.
 */
module Calendar {

  datatype Date = Date(year: int, month: int, day: int)

  predicate IsLeapYear(year: int) { year % 4 == 0 && (year % 100 != 0 || year % 400 == 0) }

  function DaysOfMonth(year: int, month: int): int
    requires 1 <= month <= 12
  {
    if month == 2 && IsLeapYear(year) then 29
    else [0, 31, 28, 31, 30, 31, 30, 31, 31, 30, 31, 30, 31][month]
  }

  predicate IsValid(d: Date) {
    1 <= d.month <= 12 && 1 <= d.day <= DaysOfMonth(d.year, d.month)
  }

  /** Days before a month of a year that begins in March; March is 3, February is 14. */
  function MonthOffset(month: int): int
    requires 1 <= month <= 14
  {
    [-91, -60, -30, 0, 31, 61, 92, 122, 153, 184, 214, 245, 275, 306, 337][month]
  }

  /** The year and month in a calendar whose years begin in March. */
  function MarchYear(d: Date): int { if d.month < 3 then d.year - 1 else d.year }

  function MarchMonth(d: Date): int { if d.month < 3 then d.month + 12 else d.month }

  /** Days before a year that begins in March. */
  function YearOffset(year: int): int { 365 * year + year / 4 - year / 100 + year / 400 }

  /** toJulianDay, at midnight and less 1721118.5 */
  function DayNumber(d: Date): int
    requires IsValid(d)
  {
    d.day + MonthOffset(MarchMonth(d)) + YearOffset(MarchYear(d))
  }

  /** The date part of computeGregorian, with every floor of a quotient as a floored
      division of integers. */
  function DateOf(z: int): Date {
    var a := (4 * z - 1) / 146097;
    var b := a - a / 4;
    var year := (4 * (b + z) - 1) / 1461;
    var c := b + z - 1461 * year / 4;
    var month := (5 * c + 456) / 153;
    var day := c - (153 * month - 457) / 5;
    if month > 12 then Date(year + 1, month - 12, day) else Date(year, month, day)
  }

  // ---------------------------------------------------------------- the inverse

  /** A year that begins in March has a 366th day just before a leap year's March. */
  lemma DayOfMarchYear(d: Date)
    requires IsValid(d)
    ensures var n := d.day + MonthOffset(MarchMonth(d));
            && 1 <= n <= 366 && (n == 366 ==> IsLeapYear(MarchYear(d) + 1))
            && (5 * n + 456) / 153 == MarchMonth(d)
            && n - (153 * MarchMonth(d) - 457) / 5 == d.day
  {
  }

  /** The century of a day: n is the day within a March year. */
  lemma CenturyOf(year: int, n: int)
    requires 1 <= n <= 366 && (n == 366 ==> IsLeapYear(year + 1))
    ensures (4 * (YearOffset(year) + n) - 1) / 146097 == year / 100
  {
    var c, y := year / 100, year % 100;
    var f := 365 * y + y / 4 + n;
    YearOffsetSplit(year);
    assert 4 * (YearOffset(year) + n) - 1 == 146097 * c + (4 * f - 1 - c % 4);
    if f > 36524 {
      assert y == 99 && n == 366;
      LastDayOfCentury(year);
    }
    CenturyQuotient(4 * (YearOffset(year) + n) - 1, c, 4 * f - 1 - c % 4);
  }

  lemma YearOffsetSplit(year: int)
    ensures var c, y := year / 100, year % 100;
            YearOffset(year) == 36524 * c + c / 4 + 365 * y + y / 4
  {
    var c, y := year / 100, year % 100;
    assert year / 4 == 25 * c + y / 4 && year / 400 == c / 4;
  }

  lemma LastDayOfCentury(year: int)
    requires year % 100 == 99 && IsLeapYear(year + 1)
    ensures year / 100 % 4 == 3
  {
    assert (year + 1) % 400 == 0;
  }

  lemma CenturyQuotient(n: int, q: int, r: int)
    requires n == 146097 * q + r && 0 <= r < 146097
    ensures n / 146097 == q
  {
  }

  lemma YearOf(year: int, n: int)
    requires 1 <= n <= 366 && (n == 366 ==> IsLeapYear(year + 1))
    ensures var b := year / 100 - year / 100 / 4;
            && (4 * (b + YearOffset(year) + n) - 1) / 1461 == year
            && b + YearOffset(year) + n - 1461 * year / 4 == n
  {
    var c, y := year / 100, year % 100;
    var b := c - c / 4;
    assert year / 4 == 25 * c + y / 4 && year / 400 == c / 4;
    assert b + YearOffset(year) + n == 36525 * c + 365 * y + y / 4 + n;
    assert 4 * (b + YearOffset(year) + n) - 1 == 1461 * year + (4 * n - 1 - y % 4);
    assert n == 366 ==> y % 4 == 3;
  }

  lemma MarchBack(d: Date)
    requires IsValid(d)
    ensures var (year, month) := (MarchYear(d), MarchMonth(d));
            d == if month > 12 then Date(year + 1, month - 12, d.day) else Date(year, month, d.day)
  {
  }

  /** computeGregorian undoes toJulianDay on every valid date of every year. */
  lemma DateOfDayNumber(d: Date)
    requires IsValid(d)
    ensures DateOf(DayNumber(d)) == d
  {
    hide MarchYear, MonthOffset, YearOffset, IsLeapYear, DaysOfMonth;
    var year, n := MarchYear(d), d.day + MonthOffset(MarchMonth(d));
    DayOfMarchYear(d);
    MarchBack(d);
    CenturyOf(year, n);
    YearOf(year, n);
  }

  // ---------------------------------------------------------------- one day after another

  /** The next day of the calendar. */
  function NextDay(d: Date): (e: Date)
    requires IsValid(d)
    ensures IsValid(e)
  {
    if d.day < DaysOfMonth(d.year, d.month) then d.(day := d.day + 1)
    else if d.month < 12 then Date(d.year, d.month + 1, 1)
    else Date(d.year + 1, 1, 1)
  }

  function PreviousDay(d: Date): (e: Date)
    requires IsValid(d)
    ensures IsValid(e) && NextDay(e) == d
  {
    if d.day > 1 then d.(day := d.day - 1)
    else if d.month > 1 then Date(d.year, d.month - 1, DaysOfMonth(d.year, d.month - 1))
    else Date(d.year - 1, 12, 31)
  }

  /** The day number rises by exactly one from each date to the next. */
  lemma NextDayNumber(d: Date)
    requires IsValid(d)
    ensures DayNumber(NextDay(d)) == DayNumber(d) + 1
  {
    if d.month == 2 && d.day == DaysOfMonth(d.year, 2) {
      assert YearOffset(d.year) - YearOffset(d.year - 1) == if IsLeapYear(d.year) then 366 else 365 by {
        LeapDay(d.year);
      }
    }
  }

  lemma LeapDay(year: int)
    ensures YearOffset(year) - YearOffset(year - 1) == if IsLeapYear(year) then 366 else 365
  {
    QuotientStep(year, 4);
    QuotientStep(year, 100);
    QuotientStep(year, 400);
    Divisible(year);
    YearLength(365 * year, year / 4, year / 100, year / 400, (year - 1) / 4, (year - 1) / 100, (year - 1) / 400,
               year % 4 == 0, year % 100 == 0, year % 400 == 0);
  }

  lemma Divisible(year: int)
    ensures (year % 100 == 0 ==> year % 4 == 0) && (year % 400 == 0 ==> year % 100 == 0)
  {
  }

  lemma YearLength(days: int, a: int, b: int, c: int, a': int, b': int, c': int, by4: bool, by100: bool, by400: bool)
    requires a - a' == (if by4 then 1 else 0) && b - b' == (if by100 then 1 else 0)
    requires c - c' == (if by400 then 1 else 0)
    requires (by100 ==> by4) && (by400 ==> by100)
    ensures days + a - b + c - (days - 365 + a' - b' + c') == if by4 && (!by100 || by400) then 366 else 365
  {
  }

  lemma QuotientStep(year: int, n: int)
    requires n == 4 || n == 100 || n == 400
    ensures year / n - (year - 1) / n == if year % n == 0 then 1 else 0
  {
  }

  /** Every day number is the number of a valid date, and of that date only. */
  lemma {:induction false} DayNumberOfDate(z: int)
    ensures IsValid(DateOf(z)) && DayNumber(DateOf(z)) == z
    decreases if z >= 1 then z else 2 - z
  {
    hide DateOf, DayNumber, NextDay, PreviousDay, IsValid;
    if z == 1 {
      FirstOfMarch();
      DateOfDayNumber(Date(0, 3, 1));
    } else if z > 1 {
      DayNumberOfDate(z - 1);
      NextDayNumber(DateOf(z - 1));
      DateOfDayNumber(NextDay(DateOf(z - 1)));
    } else {
      DayNumberOfDate(z + 1);
      var d := PreviousDay(DateOf(z + 1));
      NextDayNumber(d);
      DateOfDayNumber(d);
    }
  }

  lemma FirstOfMarch()
    ensures IsValid(Date(0, 3, 1)) && DayNumber(Date(0, 3, 1)) == 1
  {
  }

  // ---------------------------------------------------------------- days of the week

  /** dayOfWeek, of the day with this number; 0 is Sunday. */
  function DayOfWeek(z: int): int { (z + 1721120) % 7 }

  lemma DayOfWeekSteps(d: Date)
    requires IsValid(d)
    ensures DayOfWeek(DayNumber(NextDay(d))) == (DayOfWeek(DayNumber(d)) + 1) % 7
  {
    hide DayNumber, NextDay;
    NextDayNumber(d);
  }

  // ---------------------------------------------------------------- weeks of the year

  function DaysBefore(year: int, month: int): int
    requires 1 <= month <= 13
  {
    if month == 1 then 0 else DaysBefore(year, month - 1) + DaysOfMonth(year, month - 1)
  }

  function DayOfYear(d: Date): int
    requires IsValid(d)
  {
    DaysBefore(d.year, d.month) + d.day
  }

  /** The day of the year is the distance from New Year's Day. */
  lemma DayOfYearNumber(d: Date)
    requires IsValid(d)
    ensures DayNumber(d) == DayNumber(Date(d.year, 1, 1)) + DayOfYear(d) - 1
    ensures 1 <= DayOfYear(d) <= 366
  {
    hide YearOffset, IsLeapYear;
    var y := d.year;
    MonthsBefore(y);
    assert YearOffset(y) - YearOffset(y - 1) == if IsLeapYear(y) then 366 else 365 by {
      LeapDay(y);
    }
  }

  lemma MonthsBefore(year: int)
    ensures var l := if IsLeapYear(year) then 1 else 0;
            && DaysBefore(year, 1) == 0 && DaysBefore(year, 2) == 31 && DaysBefore(year, 3) == 59 + l
            && DaysBefore(year, 4) == 90 + l && DaysBefore(year, 5) == 120 + l && DaysBefore(year, 6) == 151 + l
            && DaysBefore(year, 7) == 181 + l && DaysBefore(year, 8) == 212 + l && DaysBefore(year, 9) == 243 + l
            && DaysBefore(year, 10) == 273 + l && DaysBefore(year, 11) == 304 + l && DaysBefore(year, 12) == 334 + l
  {
    assert DaysBefore(year, 2) == 31;
    assert DaysBefore(year, 4) == DaysBefore(year, 3) + 31;
    assert DaysBefore(year, 6) == DaysBefore(year, 5) + 31;
    assert DaysBefore(year, 8) == DaysBefore(year, 7) + 31;
    assert DaysBefore(year, 10) == DaysBefore(year, 9) + 30;
    assert DaysBefore(year, 12) == DaysBefore(year, 11) + 30;
  }

  /** The first day of the week a day is in, if weeks begin on this day of the week. */
  function WeekStart(z: int, first: int): int
    requires 0 <= first <= 6
  {
    z - (DayOfWeek(z) - first) % 7
  }

  /** The week number as it is documented: week 1 contains January 4. */
  function WeekNumber(d: Date, first: int): int
    requires IsValid(d) && 0 <= first <= 6
  {
    (WeekStart(DayNumber(d), first) - WeekStart(DayNumber(Date(d.year, 1, 4)), first)) / 7 + 1
  }

  /** The week number of the base day and the day of the year: what `week` computes. */
  lemma WeekFromBaseDay(d: Date, first: int, baseDay: int)
    requires IsValid(d) && 0 <= first <= 6 && 1 <= baseDay <= 7
    requires DayOfWeek(DayNumber(Date(d.year, 1, baseDay))) == first
    ensures WeekNumber(d, first) ==
              (if DayOfYear(d) < baseDay then 0 else (DayOfYear(d) - baseDay) / 7 + 1) + if baseDay <= 4 then 0 else 1
  {
    hide DaysBefore, YearOffset, DayOfYear;
    var jan1 := DayNumber(Date(d.year, 1, 1));
    DayOfYearNumber(d);
    assert DayNumber(Date(d.year, 1, baseDay)) == jan1 + baseDay - 1 && DayNumber(Date(d.year, 1, 4)) == jan1 + 3;
    hide DayNumber, IsValid;
    WeekArithmetic(jan1, DayOfYear(d), first, baseDay);
  }

  lemma WeekArithmetic(jan1: int, doy: int, first: int, baseDay: int)
    requires 1 <= doy && 0 <= first <= 6 && 1 <= baseDay <= 7 && DayOfWeek(jan1 + baseDay - 1) == first
    ensures (WeekStart(jan1 + doy - 1, first) - WeekStart(jan1 + 3, first)) / 7 + 1 ==
              (if doy < baseDay then 0 else (doy - baseDay) / 7 + 1) + if baseDay <= 4 then 0 else 1
  {
    var base := jan1 + baseDay - 1;
    WeekStartFrom(base, doy - baseDay, first);
    WeekStartFrom(base, 4 - baseDay, first);
  }

  /** Weeks are counted from any day they begin on. */
  lemma WeekStartFrom(base: int, n: int, first: int)
    requires 0 <= first <= 6 && DayOfWeek(base) == first
    ensures WeekStart(base + n, first) == base + n / 7 * 7
  {
    assert (DayOfWeek(base + n) - first) % 7 == n % 7;
  }

  /** The documented range of week numbers. */
  lemma WeekRange(d: Date, first: int)
    requires IsValid(d) && 0 <= first <= 6
    ensures 0 <= WeekNumber(d, first) <= 53
  {
    hide DayOfYear, DayNumber, WeekNumber;
    DayOfYearNumber(d);
    var jan1 := DayNumber(Date(d.year, 1, 1));
    var baseDay := 1 + (first - DayOfWeek(jan1)) % 7;
    BaseDayNumber(d.year, baseDay);
    WeekFromBaseDay(d, first, baseDay);
  }

  lemma BaseDayNumber(year: int, baseDay: int)
    requires 1 <= baseDay <= 7
    ensures DayNumber(Date(year, 1, baseDay)) == DayNumber(Date(year, 1, 1)) + baseDay - 1
  {
  }
}
