/** `DateTime`: an instant in units of 100 nanoseconds, kept together with its fields. The
    Julian days the fields are computed from are reals; a rounded one is any real near
    the exact one.
 */
module DateTimes {
  import opened Calendar

  // Timespan units, in microseconds.
  const SECONDS := 1000000
  const MINUTES := 60000000
  const HOURS := 3600000000
  const DAYS := 86400000000

  /** The day number of 15 October 1582, where UTC time is 0. */
  const EPOCH := 578042

  datatype Clock = Clock(hour: int, minute: int, second: int, millisecond: int, microsecond: int)

  predicate IsClock(c: Clock) {
    0 <= c.hour <= 23 && 0 <= c.minute <= 59 && 0 <= c.second <= 59 && 0 <= c.millisecond <= 999
        && 0 <= c.microsecond <= 999
  }

  function MicrosOf(c: Clock): int {
    c.hour * HOURS + c.minute * MINUTES + c.second * SECONDS + c.millisecond * 1000 + c.microsecond
  }

  /** The clock at so many microseconds after midnight. */
  function ClockOf(micros: int): Clock {
    Clock(micros / HOURS, micros / MINUTES % 60, micros / SECONDS % 60, micros / 1000 % 1000, micros % 1000)
  }

  /** A clock reading is the digits of the microseconds since midnight. */
  lemma ClockOfMicros(c: Clock)
    requires IsClock(c)
    ensures 0 <= MicrosOf(c) < DAYS && ClockOf(MicrosOf(c)) == c
  {
    var m := MicrosOf(c);
    assert m / 1000 == ((c.hour * 60 + c.minute) * 60 + c.second) * 1000 + c.millisecond;
    assert m / SECONDS == (c.hour * 60 + c.minute) * 60 + c.second;
    assert m / MINUTES == c.hour * 60 + c.minute;
  }

  lemma MicrosOfClock(micros: int)
    requires 0 <= micros < DAYS
    ensures IsClock(ClockOf(micros)) && MicrosOf(ClockOf(micros)) == micros
  {
    assert micros / SECONDS == micros / 1000 / 1000;
    assert micros / MINUTES == micros / SECONDS / 60;
    assert micros / HOURS == micros / MINUTES / 60;
  }

  // ---------------------------------------------------------------- reals

  /** A double within half an hour of the Julian day of this instant. */
  predicate Near(julianDay: real, utcTime: int) {
    JulianDay(utcTime) - 1.0 / 48.0 <= julianDay <= JulianDay(utcTime) + 1.0 / 48.0
  }

  /** julianDay, without rounding. */
  function JulianDay(utcTime: int): real { utcTime as real / 864000000000.0 + 2299160.5 }

  /** The microseconds from day number 0 to a Julian day, rounded to the nearest. */
  function NearestMicro(julianDay: real): int {
    ((julianDay - 1721118.5) * 86400000000.0 + 0.5).Floor
  }

  /** toJulianDay */
  function ToJulianDay(d: Date, c: Clock): real
    requires IsValid(d)
  {
    var dday := d.day as real
                + ((((c.hour * 60 + c.minute) * 60 + c.second) as real * 1000.0 + c.millisecond as real) * 1000.0
                   + c.microsecond as real) / 86400000000.0;
    var month := if d.month < 3 then d.month + 12 else d.month;
    var year := if d.month < 3 then d.year - 1 else d.year;
    var dyear := year as real;
    dday + (MonthOffset(month) + 365 * year) as real
    + (dyear / 4.0).Floor as real - (dyear / 100.0).Floor as real + (dyear / 400.0).Floor as real + 1721118.5
  }

  lemma FloorIs(x: real, k: int)
    requires k as real <= x < k as real + 1.0
    ensures x.Floor == k
  {
  }

  /** The real day number is the integer one and the fraction of the day. */
  lemma ToJulianDayExact(d: Date, c: Clock)
    requires IsValid(d)
    ensures (ToJulianDay(d, c) - 1721118.5) * 86400000000.0 == (DayNumber(d) * DAYS + MicrosOf(c)) as real
  {
    var year := MarchYear(d);
    FloorIs(year as real / 4.0, year / 4);
    FloorIs(year as real / 100.0, year / 100);
    FloorIs(year as real / 400.0, year / 400);
  }

  // ---------------------------------------------------------------- truncating division

  function Quot(a: int, b: int): int
    requires b > 0
  {
    if a >= 0 then a / b else -(-a / b)
  }

  function Rem(a: int, b: int): int
    requires b > 0
  {
    a - b * Quot(a, b)
  }

  /** The Timespan accessors: hours, minutes, seconds, milliseconds, microseconds. */
  function SpanClock(span: int): Clock {
    Clock(Rem(Quot(span, HOURS), 24), Rem(Quot(span, MINUTES), 60), Rem(Quot(span, SECONDS), 60),
          Rem(Quot(span, 1000), 1000), Rem(span, 1000))
  }

  /** The date and the clock at a number of microseconds after day number 0. */
  function DateAt(micros: int): Date { DateOf(micros / DAYS) }

  function ClockAt(micros: int): Clock { ClockOf(micros % DAYS) }

  function MicrosAt(utcTime: int): int { EPOCH * DAYS + utcTime / 10 }

  lemma SpanClockOfTime(utcTime: int)
    requires utcTime >= 0
    ensures SpanClock(Quot(utcTime, 10)) == ClockAt(MicrosAt(utcTime))
  {
    hide SpanClock, Quot, ClockAt, ClockOf, MicrosAt;
    QuotIs(utcTime, 10);
    SpanDigits(utcTime / 10);
    DigitsOfDay(utcTime / 10);
    TimeOfDay(utcTime);
  }

  lemma QuotIs(a: int, b: int)
    requires a >= 0 && b > 0
    ensures Quot(a, b) == a / b >= 0
  {
  }

  /** The accessors of a span that is not negative. */
  lemma SpanDigits(m: int)
    requires m >= 0
    ensures SpanClock(m) == Clock(m / HOURS % 24, m / MINUTES % 60, m / SECONDS % 60, m / 1000 % 1000, m % 1000)
  {
    hide Rem, Quot;
    QuotIs(m, HOURS);
    QuotIs(m, MINUTES);
    QuotIs(m, SECONDS);
    QuotIs(m, 1000);
    NotNegative(Quot(m, HOURS), Quot(m, MINUTES), Quot(m, SECONDS), Quot(m, 1000), m);
  }

  /** The epoch is at midnight. */
  lemma TimeOfDay(utcTime: int)
    ensures ClockAt(MicrosAt(utcTime)) == ClockOf(utcTime / 10 % DAYS)
  {
    hide ClockOf;
    WholeDays(EPOCH, utcTime / 10);
  }

  lemma WholeDays(days: int, micros: int)
    ensures (days * DAYS + micros) % DAYS == micros % DAYS
  {
    var q, r := micros / DAYS, micros % DAYS;
    assert days * DAYS + micros == DAYS * (days + q) + r;
  }

  lemma NotNegative(h: int, m: int, s: int, ms: int, us: int)
    requires h >= 0 && m >= 0 && s >= 0 && ms >= 0 && us >= 0
    ensures Rem(h, 24) == h % 24 && Rem(m, 60) == m % 60 && Rem(s, 60) == s % 60
    ensures Rem(ms, 1000) == ms % 1000 && Rem(us, 1000) == us % 1000
  {
  }

  /** The clock reads the same digits with or without the whole days. */
  lemma DigitsOfDay(m: int)
    ensures ClockOf(m % DAYS) == Clock(m / HOURS % 24, m / MINUTES % 60, m / SECONDS % 60, m / 1000 % 1000, m % 1000)
  {
    var day, rest := m / DAYS, m % DAYS;
    HourOfDay(day, rest);
    MinuteOfDay(day, rest);
    SecondOfDay(day, rest);
    MilliOfDay(day, rest);
  }

  lemma HourOfDay(day: int, rest: int)
    requires 0 <= rest < DAYS
    ensures (day * DAYS + rest) / HOURS % 24 == rest / HOURS
  {
    assert (day * DAYS + rest) / HOURS == day * 24 + rest / HOURS;
  }

  lemma MinuteOfDay(day: int, rest: int)
    ensures (day * DAYS + rest) / MINUTES % 60 == rest / MINUTES % 60
  {
    assert (day * DAYS + rest) / MINUTES == 60 * (day * 24) + rest / MINUTES;
  }

  lemma SecondOfDay(day: int, rest: int)
    ensures (day * DAYS + rest) / SECONDS % 60 == rest / SECONDS % 60
  {
    assert (day * DAYS + rest) / SECONDS == 60 * (day * 1440) + rest / SECONDS;
  }

  lemma MilliOfDay(day: int, rest: int)
    ensures (day * DAYS + rest) / 1000 % 1000 == rest / 1000 % 1000
    ensures (day * DAYS + rest) % 1000 == rest % 1000
  {
    assert (day * DAYS + rest) / 1000 == 1000 * (day * 86400) + rest / 1000;
  }

  /** At or after the epoch, or at midnight. */
  predicate ClockFits(utcTime: int) { utcTime >= 0 || utcTime % 864000000000 == 0 }

  /** Before the epoch the accessors truncate toward zero: the clock is right if and only if
      the instant is at or after the epoch, or at midnight. */
  lemma ClockIsRight(utcTime: int)
    ensures SpanClock(Quot(utcTime, 10)) == ClockAt(MicrosAt(utcTime)) <==> ClockFits(utcTime)
  {
    if utcTime >= 0 {
      SpanClockOfTime(utcTime);
    } else {
      NegativeClock(utcTime);
    }
  }

  lemma NegativeRem(n: int, b: int)
    requires 0 <= n && (b == 24 || b == 60 || b == 1000)
    ensures Rem(-n, b) == -(n % b)
  {
  }

  lemma NegativeSpan(n: int)
    requires 0 <= n
    ensures var c := ClockOf(n % DAYS);
            SpanClock(-n) == Clock(-c.hour, -c.minute, -c.second, -c.millisecond, -c.microsecond)
  {
    DigitsOfDay(n);
    hide Rem, ClockOf;
    NegativeRem(n / HOURS, 24);
    NegativeRem(n / MINUTES, 60);
    NegativeRem(n / SECONDS, 60);
    NegativeRem(n / 1000, 1000);
    NegativeRem(n, 1000);
  }

  lemma NegativeClock(utcTime: int)
    requires utcTime < 0
    ensures SpanClock(Quot(utcTime, 10)) == ClockAt(MicrosAt(utcTime)) <==> utcTime % 864000000000 == 0
  {
    var n := -utcTime / 10;
    var m := utcTime / 10;
    MidnightBefore(utcTime);
    NegativeSpan(n);
    MicrosOfClock(n % DAYS);
    MicrosOfClock(m % DAYS);
    MidnightClock(ClockOf(n % DAYS));
    MidnightClock(ClockOf(m % DAYS));
    hide SpanClock, ClockOf, MicrosOf, Quot;
    var c, d := ClockOf(n % DAYS), ClockOf(m % DAYS);
    if SpanClock(-n) == d {
      assert c.hour == 0 == d.hour && c.minute == 0 == d.minute && c.second == 0 == d.second;
    }
  }

  lemma MidnightClock(c: Clock)
    requires IsClock(c)
    ensures MicrosOf(c) == 0 <==> c == Clock(0, 0, 0, 0, 0)
  {
  }

  lemma MidnightBefore(utcTime: int)
    requires utcTime < 0
    ensures var (n, m) := (-utcTime / 10, utcTime / 10);
            && Quot(utcTime, 10) == -n && MicrosAt(utcTime) % DAYS == m % DAYS
            && (n % DAYS == 0 && m % DAYS == 0 <==> utcTime % 864000000000 == 0)
  {
    var n, m := -utcTime / 10, utcTime / 10;
    var r := -utcTime % 10;
    assert utcTime == -(10 * n + r);
    assert m == if r == 0 then -n else -n - 1;
  }

  /** The seven digits of a clock are decided by the hour when two instants are less than an
      hour apart: the later one is on the next day exactly when the hours are 23 and 0. */
  lemma HoursTellDays(m: int, n: int)
    requires -HOURS < m - n < HOURS
    ensures m / DAYS == n / DAYS + if ClockAt(n).hour == 23 && ClockAt(m).hour == 0 then 1
                                   else if ClockAt(n).hour == 0 && ClockAt(m).hour == 23 then -1 else 0
  {
    var p, q := m % DAYS, n % DAYS;
    assert m - n == (m / DAYS - n / DAYS) * DAYS + (p - q);
    assert p / HOURS == 23 <==> 23 * HOURS <= p;
    assert p / HOURS == 0 <==> p < HOURS;
    assert q / HOURS == 23 <==> 23 * HOURS <= q;
    assert q / HOURS == 0 <==> q < HOURS;
  }

  // ---------------------------------------------------------------- rounding to a microsecond

  /** The date part of computeGregorian on reals is `DateOf`. */
  lemma GregorianFloors(z: int)
    ensures var g := z as real - 0.25;
            var a := (g / 36524.25).Floor;
            var b := a - (a as real / 4.0).Floor;
            var year := ((b as real + g) / 365.25).Floor;
            var c := b + z - (365.25 * year as real).Floor;
            var month := ((5 * c + 456) as real / 153.0).Floor;
            var day := c - ((153.0 * month as real - 457.0) / 5.0).Floor;
            DateOf(z) == if month > 12 then Date(year + 1, month - 12, day) else Date(year, month, day)
  {
    var a := (4 * z - 1) / 146097;
    CenturyFloor(z);
    FloorIs(a as real / 4.0, a / 4);
    var b := a - a / 4;
    var year := (4 * (b + z) - 1) / 1461;
    YearFloors(b, z, year);
    var c := b + z - 1461 * year / 4;
    MonthFloors(c, (5 * c + 456) / 153);
  }

  lemma CenturyFloor(z: int)
    ensures ((z as real - 0.25) / 36524.25).Floor == (4 * z - 1) / 146097
  {
    FloorIs((z as real - 0.25) / 36524.25, (4 * z - 1) / 146097);
  }

  lemma YearFloors(b: int, z: int, year: int)
    ensures ((b as real + (z as real - 0.25)) / 365.25).Floor == (4 * (b + z) - 1) / 1461
    ensures (365.25 * year as real).Floor == 1461 * year / 4
  {
    FloorIs((b as real + (z as real - 0.25)) / 365.25, (4 * (b + z) - 1) / 1461);
    FloorIs(365.25 * year as real, 1461 * year / 4);
  }

  lemma MonthFloors(c: int, month: int)
    ensures ((5 * c + 456) as real / 153.0).Floor == (5 * c + 456) / 153
    ensures ((153.0 * month as real - 457.0) / 5.0).Floor == (153 * month - 457) / 5
  {
    FloorIs((5 * c + 456) as real / 153.0, (5 * c + 456) / 153);
    FloorIs((153.0 * month as real - 457.0) / 5.0, (153 * month - 457) / 5);
  }

  /** The carries keep the sum. */
  lemma CarriedClock(day: int, c: Clock, ms: int, s: int, m: int, h: int, day': int, c': Clock)
    requires IsClock(c')
    requires c'.microsecond + 1000 * ms == c.microsecond + 1000 * c.millisecond
    requires c'.millisecond + 1000 * s == ms + 1000 * c.second
    requires c'.second + 60 * m == s + 60 * c.minute
    requires c'.minute + 60 * h == m + 60 * c.hour
    requires c'.hour + 24 * day' == h + 24 * day
    ensures MicrosOf(c') + DAYS * day' == MicrosOf(c) + DAYS * day
    ensures 0 <= MicrosOf(c') < DAYS && day' == day + MicrosOf(c) / DAYS
  {
    ClockOfMicros(c');
    WholeQuotient(day' - day, MicrosOf(c'), MicrosOf(c));
  }

  lemma WholeQuotient(q: int, r: int, n: int)
    requires n == q * DAYS + r && 0 <= r < DAYS
    ensures n / DAYS == q
  {
  }

  /** The digits of a fraction of a day, the last of them rounded. */
  lemma RoundedDigits(julianDay: real, z: int, h: int, m: int, s: int, ms: int, r: real)
    requires (((((julianDay - 1721118.5 - z as real) * 24.0 - h as real) * 60.0 - m as real) * 60.0
                - s as real) * 1000.0 - ms as real) * 1000.0 == r
    ensures z * DAYS + MicrosOf(Clock(h, m, s, ms, (r + 0.5).Floor)) == NearestMicro(julianDay)
  {
    var whole := z * DAYS + MicrosOf(Clock(h, m, s, ms, 0));
    assert (julianDay - 1721118.5) * 86400000000.0 == whole as real + r;
    FloorIs((julianDay - 1721118.5) * 86400000000.0 + 0.5, whole + (r + 0.5).Floor);
  }

  function NextMonth(d: Date): Date {
    if d.month < 12 then Date(d.year, d.month + 1, 1) else Date(d.year + 1, 1, 1)
  }

  /** Days counted from a date into the next month. */
  lemma IntoNextMonth(d: Date, n: int)
    requires IsValid(d) && DaysOfMonth(d.year, d.month) < n
    ensures var e := NextMonth(d).(day := n - DaysOfMonth(d.year, d.month));
            && (IsValid(e) <==> n <= DaysOfMonth(d.year, d.month) + DaysOfMonth(e.year, e.month))
            && (IsValid(e) ==> DayNumber(e) == DayNumber(d) + n - d.day)
  {
    hide IsLeapYear, YearOffset, MonthOffset;
    var last := d.(day := DaysOfMonth(d.year, d.month));
    NextDayNumber(last);
    assert NextDay(last) == NextMonth(d);
  }

  lemma SomeDays(d: Date)
    requires 1 <= d.month <= 12
    ensures DaysOfMonth(d.year, d.month) >= 28
  {
    hide IsLeapYear;
  }

  lemma OneDayAtMost(c: Clock)
    requires IsClock(c.(microsecond := 0)) && 0 <= c.microsecond <= 1000
    ensures MicrosOf(c) / DAYS <= 1
  {
    assert MicrosOf(c) <= DAYS;
  }

  /** toUtcTime: truncated, so a Julian day with no fraction of a 100 nanoseconds is exact. */
  function ToUtcTime(julianDay: real): int {
    var x := (julianDay - 2299160.5) * 864000000000.0;
    if x >= 0.0 then x.Floor else -(-x).Floor
  }

  /** A DateTime. */
  class DateTime {
    var utcTime: int
    var year: int
    var month: int
    var day: int
    var hour: int
    var minute: int
    var second: int
    var millisecond: int
    var microsecond: int

    function TheDate(): Date reads this { Date(year, month, day) }

    function TheClock(): Clock reads this { Clock(hour, minute, second, millisecond, microsecond) }

    /** The fields tell the instant. */
    ghost predicate Agrees()
      reads this
    {
      IsValid(TheDate()) && TheDate() == DateAt(MicrosAt(utcTime)) && TheClock() == ClockAt(MicrosAt(utcTime))
    }

    static method CheckLimit(lower: int, higher: int, limit: int) returns (lower': int, higher': int)
      requires lower >= 0 && limit > 0
      ensures 0 <= lower' < limit && lower' + limit * higher' == lower + limit * higher && higher <= higher'
      ensures lower < limit ==> lower' == lower && higher' == higher
    {
      lower', higher' := lower, higher;
      if lower >= limit {
        higher' := higher + lower / limit;
        lower' := lower % limit;
        assert limit * (lower / limit) + lower % limit == lower;
      }
    }

    ghost predicate NotNegative()
      reads this
    {
      hour >= 0 && minute >= 0 && second >= 0 && millisecond >= 0 && microsecond >= 0
    }

    /** The carries from the microsecond to the day. */
    method CarryClock()
      requires NotNegative() && day >= 0
      modifies this
      ensures utcTime == old(utcTime) && year == old(year) && month == old(month)
      ensures IsClock(TheClock()) && MicrosOf(TheClock()) + DAYS * day == old(MicrosOf(TheClock()) + DAYS * day)
      ensures day == old(day + MicrosOf(TheClock()) / DAYS) && day >= old(day)
    {
      hide MicrosOf;
      ghost var was, clock := day, TheClock();
      microsecond, millisecond := CheckLimit(microsecond, millisecond, 1000);
      ghost var ms := millisecond;
      millisecond, second := CheckLimit(millisecond, second, 1000);
      ghost var s := second;
      second, minute := CheckLimit(second, minute, 60);
      ghost var m := minute;
      minute, hour := CheckLimit(minute, hour, 60);
      ghost var h := hour;
      hour, day := CheckLimit(hour, day, 24);
      CarriedClock(was, clock, ms, s, m, h, day, TheClock());
    }

    /** Carries any clock, and from the day at most once into the next month: the result is a date
        exactly if the days do not go beyond that month, and then it is the same moment. */
    method Normalize()
      requires IsValid(TheDate()) && NotNegative()
      modifies this
      ensures utcTime == old(utcTime) && IsClock(TheClock())
      ensures IsValid(TheDate()) <==>
                old(day + MicrosOf(TheClock()) / DAYS
                    <= DaysOfMonth(year, month) + DaysOfMonth(NextMonth(TheDate()).year, NextMonth(TheDate()).month))
      ensures IsValid(TheDate()) ==>
                DayNumber(TheDate()) * DAYS + MicrosOf(TheClock()) ==
                old(DayNumber(TheDate()) * DAYS + MicrosOf(TheClock()))
    {
      hide IsLeapYear, MicrosOf, YearOffset, MonthOffset;
      ghost var was, days := TheDate(), DaysOfMonth(year, month);
      ghost var micros := MicrosOf(TheClock());
      CarryClock();
      ghost var n := day;
      if day > DaysOfMonth(year, month) {
        IntoNextMonth(was, n);
        day := day - DaysOfMonth(year, month);
        month := month + 1;
        if month > 12 {
          year := year + 1;
          month := month - 12;
        }
        assert TheDate() == NextMonth(was).(day := n - days);
      } else {
        assert IsValid(TheDate()) && DayNumber(TheDate()) == DayNumber(was) + n - was.day;
        SomeDays(NextMonth(was));
      }
    }

    /** The fields of the Julian day, rounded to the nearest microsecond. */
    method ComputeGregorian(julianDay: real)
      modifies this
      ensures utcTime == old(utcTime)
      ensures TheDate() == DateAt(NearestMicro(julianDay)) && TheClock() == ClockAt(NearestMicro(julianDay))
      ensures IsValid(TheDate()) && IsClock(TheClock())
    {
      hide DateOf, DayNumber, DaysOfMonth, ClockOf, NearestMicro, MicrosOf;
      var z := (julianDay - 1721118.5).Floor;
      var r := julianDay - 1721118.5 - z as real;
      ReadDate(z, r);
      ReadClock(r, julianDay, z);
      OneDayAtMost(TheClock());
      SomeDays(NextMonth(TheDate()));
      Normalize();
      DigitsAgree(TheDate(), TheClock());
    }

    /** The date of a day and a fraction of it. */
    method ReadDate(z: int, r: real)
      requires 0.0 <= r < 1.0
      modifies this`year, this`month, this`day
      ensures TheDate() == DateOf(z) && IsValid(TheDate()) && DayNumber(TheDate()) == z
    {
      hide DateOf, DayNumber, IsValid;
      var g := z as real - 0.25;
      var a := (g / 36524.25).Floor;
      var b := a - (a as real / 4.0).Floor;
      year := ((b as real + g) / 365.25).Floor;
      var c := b + z - (365.25 * year as real).Floor;
      month := ((5 * c + 456) as real / 153.0).Floor;
      var dday := c as real - ((153.0 * month as real - 457.0) / 5.0).Floor as real + r;
      GregorianFloors(z);
      DayNumberOfDate(z);
      day := dday.Floor;
      if month > 12 {
        year := year + 1;
        month := month - 12;
      }
    }

    /** The digits of a fraction of a day, the last of them rounded. */
    method ReadClock(fraction: real, ghost julianDay: real, ghost z: int)
      requires 0.0 <= fraction < 1.0 && fraction == julianDay - 1721118.5 - z as real
      modifies this`hour, this`minute, this`second, this`millisecond, this`microsecond
      ensures IsClock(TheClock().(microsecond := 0)) && 0 <= microsecond <= 1000
      ensures z * DAYS + MicrosOf(TheClock()) == NearestMicro(julianDay)
    {
      hide MicrosOf, NearestMicro;
      var r := fraction * 24.0;
      hour := r.Floor;
      r := r - r.Floor as real;
      r := r * 60.0;
      minute := r.Floor;
      r := r - r.Floor as real;
      r := r * 60.0;
      second := r.Floor;
      r := r - r.Floor as real;
      r := r * 1000.0;
      millisecond := r.Floor;
      r := r - r.Floor as real;
      r := r * 1000.0;
      microsecond := (r + 0.5).Floor;
      RoundedDigits(julianDay, z, hour, minute, second, millisecond, r);
    }

    /** The clock of the instant; the date is put right if rounding has crossed midnight. */
    method ComputeDaytime()
      requires IsValid(TheDate())
      modifies this
      ensures utcTime == old(utcTime) && TheClock() == SpanClock(Quot(utcTime, 10)) && IsValid(TheDate())
      ensures TheDate() == if TheClock().hour == 23 && old(hour) == 0 then PreviousDay(old(TheDate()))
                           else if TheClock().hour == 0 && old(hour) == 23 then NextDay(old(TheDate()))
                           else old(TheDate())
    {
      hide IsLeapYear, SpanClock, Quot;
      var span := SpanClock(Quot(utcTime, 10));
      if span.hour == 23 && hour == 0 {
        day := day - 1;
        if day == 0 {
          month := month - 1;
          if month == 0 {
            month := 12;
            year := year - 1;
          }
          day := DaysOfMonth(year, month);
        }
      } else if span.hour == 0 && hour == 23 {
        day := day + 1;
        if day > DaysOfMonth(year, month) {
          month := month + 1;
          if month > 12 {
            month := 1;
            year := year + 1;
          }
          day := 1;
        }
      }
      hour := span.hour;
      minute := span.minute;
      second := span.second;
      millisecond := span.millisecond;
      microsecond := span.microsecond;
    }

    /** Computes the fields from the instant, through a Julian day that is off by at most
        half an hour: they are those of the instant exactly if it is not before the epoch, or is at
        midnight. */
    method Refresh(julianDay: real)
      requires Near(julianDay, utcTime)
      modifies this
      ensures utcTime == old(utcTime) && (Agrees() <==> ClockFits(utcTime))
    {
      hide SpanClock, Quot, ClockAt, MicrosAt, DateAt, PreviousDay, NextDay;
      ComputeGregorian(julianDay);
      Repaired(julianDay, utcTime);
      ClockIsRight(utcTime);
      ComputeDaytime();
    }

    /** DateTime(Timestamp) */
    constructor FromInstant(utcTime: int, julianDay: real)
      requires Near(julianDay, utcTime)
      ensures this.utcTime == utcTime && (Agrees() <==> ClockFits(utcTime))
    {
      this.utcTime := utcTime;
      new;
      Refresh(julianDay);
    }

    /** DateTime(year, month, ...) */
    constructor FromFields(d: Date, c: Clock)
      requires 0 <= d.year <= 9999 && IsValid(d) && IsClock(c)
      ensures TheDate() == d && TheClock() == c && Agrees()
      ensures utcTime == (DayNumber(d) - EPOCH) * 864000000000 + 10 * MicrosOf(c)
    {
      hide DayNumber, ToUtcTime, ToJulianDay, DaysOfMonth, DateOf, ClockOf, MicrosOf;
      utcTime := ToUtcTime(ToJulianDay(d, Clock(0, 0, 0, 0, 0))) + 10 * MicrosOf(c);
      year, month, day := d.year, d.month, d.day;
      hour, minute, second, millisecond, microsecond := c.hour, c.minute, c.second, c.millisecond, c.microsecond;
      new;
      FieldsAgree(d, c);
    }

    /** operator+= and, with a negative span, operator-= */
    method Add(span: int, julianDay: real)
      requires Near(julianDay, utcTime + span * 10)
      modifies this
      ensures utcTime == old(utcTime) + span * 10 && (Agrees() <==> ClockFits(utcTime))
    {
      utcTime := utcTime + span * 10;
      Refresh(julianDay);
    }

    /** dayOfYear */
    method DayOfTheYear() returns (doy: int)
      requires IsValid(TheDate())
      ensures doy == DayOfYear(TheDate())
    {
      doy := 0;
      var m := 1;
      while m < month
        invariant 1 <= m <= month && doy == DaysBefore(year, m)
      {
        doy := doy + DaysOfMonth(year, m);
        m := m + 1;
      }
      doy := doy + day;
    }

    /** dayOfWeek, from a Julian day that is off by at most half an hour: it is the weekday of the
        date exactly if that Julian day is still on the same date. */
    method WeekDay(julianDay: real) returns (dow: int)
      requires Agrees() && Near(julianDay, utcTime)
      ensures dow == DayOfWeek((julianDay - 1721118.5).Floor)
      ensures dow == DayOfWeek(DayNumber(TheDate())) <==> (julianDay - 1721118.5).Floor == DayNumber(TheDate())
    {
      hide DayNumber;
      dow := (julianDay + 1.5).Floor % 7;
      var z := MicrosAt(utcTime) / DAYS;
      DayNumberOfDate(z);
      FloorIs(julianDay + 1.5, (julianDay - 1721118.5).Floor + 1721120);
      NearbyDay(julianDay, utcTime);
    }

    /** The weekday of a day in January, at midnight. */
    static method January(year: int, day: int, julianDay: int -> real) returns (dow: int)
      requires 0 <= year <= 9999 && 1 <= day <= 31
      requires forall midnight :: midnight % 864000000000 == 0 ==> julianDay(midnight) == JulianDay(midnight)
      ensures dow == DayOfWeek(DayNumber(Date(year, 1, day)))
    {
      hide DayNumber, DayOfWeek, Near;
      var d := Date(year, 1, day);
      var jan := new DateTime.FromFields(d, Clock(0, 0, 0, 0, 0));
      MidnightDay(d, jan.utcTime, julianDay(jan.utcTime));
      dow := jan.WeekDay(julianDay(jan.utcTime));
    }

    /** week, where the Julian day of a midnight is not rounded: the loop looks for the first day
        of January on which a week begins. */
    method Week(first: int, julianDay: int -> real) returns (week: int)
      requires 0 <= year <= 9999 && IsValid(TheDate()) && 0 <= first <= 6
      requires forall midnight :: midnight % 864000000000 == 0 ==> julianDay(midnight) == JulianDay(midnight)
      ensures week == WeekNumber(TheDate(), first)
    {
      hide WeekNumber, DayOfYear, DayNumber, DaysBefore;
      var baseDay := 1;
      var dow := January(year, baseDay, julianDay);
      while dow != first
        invariant 1 <= baseDay <= 7 && dow == DayOfWeek(DayNumber(Date(year, 1, baseDay)))
        invariant forall k :: 1 <= k < baseDay ==> DayOfWeek(DayNumber(Date(year, 1, k))) != first
        decreases 7 - baseDay
      {
        SomeDayFits(year, first, baseDay);
        baseDay := baseDay + 1;
        dow := January(year, baseDay, julianDay);
      }
      var doy := DayOfTheYear();
      WeekFromBaseDay(TheDate(), first, baseDay);
      var offs := if baseDay <= 4 then 0 else 1;
      week := if doy < baseDay then offs else (doy - baseDay) / 7 + 1 + offs;
    }
  }

  /** A Julian day that is off by half an hour is on the date of the instant or next to it. */
  lemma NearbyDay(julianDay: real, utcTime: int)
    requires Near(julianDay, utcTime)
    ensures var (z, n) := (MicrosAt(utcTime) / DAYS, (julianDay - 1721118.5).Floor);
            z - 1 <= n <= z + 1 && (DayOfWeek(n) == DayOfWeek(z) ==> n == z)
    ensures julianDay == JulianDay(utcTime) ==> (julianDay - 1721118.5).Floor == MicrosAt(utcTime) / DAYS
  {
    var z, n := MicrosAt(utcTime) / DAYS, (julianDay - 1721118.5).Floor;
    var x := JulianDay(utcTime) - 1721118.5;
    ExactDay(utcTime);
    assert z as real <= x < z as real + 1.0;
    if DayOfWeek(n) == DayOfWeek(z) {
      SevenDays(n + 1721120, z + 1721120);
    }
  }

  lemma ExactDay(utcTime: int)
    ensures var z := MicrosAt(utcTime) / DAYS;
            z as real <= JulianDay(utcTime) - 1721118.5 < z as real + 1.0
  {
    var z := MicrosAt(utcTime) / DAYS;
    assert z == EPOCH + utcTime / 864000000000;
    var q, r := utcTime / 864000000000, utcTime % 864000000000;
    assert utcTime as real / 864000000000.0 == q as real + r as real / 864000000000.0;
  }

  lemma SevenDays(a: int, b: int)
    requires b - 1 <= a <= b + 1 && a % 7 == b % 7
    ensures a == b
  {
  }

  /** At a midnight whose Julian day is not rounded the date is exact. */
  lemma MidnightDay(d: Date, utcTime: int, julianDay: real)
    requires IsValid(d) && utcTime == (DayNumber(d) - EPOCH) * 864000000000
    requires utcTime % 864000000000 == 0 ==> julianDay == JulianDay(utcTime)
    ensures Near(julianDay, utcTime) && (julianDay - 1721118.5).Floor == DayNumber(d)
  {
    hide DayNumber, IsValid;
    var days := DayNumber(d) - EPOCH;
    assert (days * 864000000000) % 864000000000 == 0;
    NearbyDay(julianDay, utcTime);
    assert utcTime / 10 == days * DAYS;
  }

  lemma DigitsAgree(d: Date, c: Clock)
    requires IsValid(d) && IsClock(c)
    ensures var m := DayNumber(d) * DAYS + MicrosOf(c);
            DateAt(m) == d && ClockAt(m) == c
  {
    hide DayNumber, DateOf, IsValid, ClockOf;
    ClockOfMicros(c);
    DateOfDayNumber(d);
    hide MicrosOf;
    var m := DayNumber(d) * DAYS + MicrosOf(c);
    assert m / DAYS == DayNumber(d) && m % DAYS == MicrosOf(c);
  }

  /** computeGregorian undoes toJulianDay: every date of every year, to the microsecond. */
  lemma GregorianRoundTrip(d: Date, c: Clock)
    requires IsValid(d) && IsClock(c)
    ensures var m := NearestMicro(ToJulianDay(d, c));
            DateAt(m) == d && ClockAt(m) == c
  {
    hide ToJulianDay, DayNumber, IsValid, MicrosOf, IsClock, DateOf, ClockOf;
    ToJulianDayExact(d, c);
    var m := DayNumber(d) * DAYS + MicrosOf(c);
    FloorIs((ToJulianDay(d, c) - 1721118.5) * 86400000000.0 + 0.5, m);
    DigitsAgree(d, c);
  }

  /** A Julian day off by at most half an hour is on another day only across midnight. */
  lemma Repaired(julianDay: real, utcTime: int)
    requires Near(julianDay, utcTime)
    ensures var (m, n) := (NearestMicro(julianDay), MicrosAt(utcTime));
            && IsValid(DateAt(m)) && IsValid(DateAt(n))
            && DateAt(n) == if ClockAt(n).hour == 23 && ClockAt(m).hour == 0 then PreviousDay(DateAt(m))
                            else if ClockAt(n).hour == 0 && ClockAt(m).hour == 23 then NextDay(DateAt(m))
                            else DateAt(m)
  {
    hide DateOf, DayNumber, NextDay, IsValid, ClockOf;
    var m, n := NearestMicro(julianDay), MicrosAt(utcTime);
    NearMicros(julianDay, utcTime);
    HoursTellDays(m, n);
    hide NearestMicro, MicrosAt, ClockAt;
    DayNumberOfDate(m / DAYS);
    DayNumberOfDate(n / DAYS);
    NextDayNumber(DateAt(m));
    DateOfDayNumber(NextDay(DateAt(m)));
    NextDayNumber(DateAt(n));
    DateOfDayNumber(NextDay(DateAt(n)));
    PreviousOfNext(DateAt(n));
  }

  lemma PreviousOfNext(d: Date)
    requires IsValid(d)
    ensures PreviousDay(NextDay(d)) == d
  {
  }

  lemma NearMicros(julianDay: real, utcTime: int)
    requires Near(julianDay, utcTime)
    ensures -HOURS < NearestMicro(julianDay) - MicrosAt(utcTime) < HOURS
  {
    var x := (julianDay - 1721118.5) * 86400000000.0 + 0.5;
    var y := utcTime as real / 10.0 + (EPOCH * DAYS) as real;
    assert y - 1800000000.0 <= x - 0.5 <= y + 1800000000.0;
  }

  /** The instant of some fields has those fields. */
  lemma FieldsAgree(d: Date, c: Clock)
    requires IsValid(d) && IsClock(c)
    ensures var utcTime := ToUtcTime(ToJulianDay(d, Clock(0, 0, 0, 0, 0))) + 10 * MicrosOf(c);
            && DateAt(MicrosAt(utcTime)) == d && ClockAt(MicrosAt(utcTime)) == c
            && utcTime == (DayNumber(d) - EPOCH) * 864000000000 + 10 * MicrosOf(c)
  {
    hide DateOf, DayNumber, ClockOf;
    ToJulianDayExact(d, Clock(0, 0, 0, 0, 0));
    hide ToJulianDay, IsValid;
    var jd := ToJulianDay(d, Clock(0, 0, 0, 0, 0));
    var days := DayNumber(d) - EPOCH;
    assert (jd - 2299160.5) * 864000000000.0 == (days * DAYS * 10) as real;
    assert ToUtcTime(jd) == days * DAYS * 10;
    DigitsAgree(d, c);
  }

  lemma SomeDayFits(year: int, first: int, baseDay: int)
    requires 0 <= first <= 6 && 1 <= baseDay <= 7
    requires forall k :: 1 <= k <= baseDay ==> DayOfWeek(DayNumber(Date(year, 1, k))) != first
    ensures baseDay < 7
  {
    hide DayOfWeek;
    var jan1 := DayNumber(Date(year, 1, 1));
    forall k | 1 <= k <= 7 ensures DayNumber(Date(year, 1, k)) == jan1 + k - 1 {
      BaseDayNumber(year, k);
    }
    hide DayNumber;
    var k := 1 + (first - DayOfWeek(jan1)) % 7;
    WeekDayFits(jan1, first);
    assert DayNumber(Date(year, 1, k)) == jan1 + k - 1;
  }

  lemma WeekDayFits(z: int, first: int)
    requires 0 <= first <= 6
    ensures DayOfWeek(z + (first - DayOfWeek(z)) % 7) == first
  {
  }
}
