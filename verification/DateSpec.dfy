/** What the formatter prints, written out: days and months by name, numbers by their digits, and
    the standard formats as documented.
 */
module DateSpec {
  import opened Options
  import opened Calendar
  import opened DateTimes
  import opened DateFormats
  import opened DateText
  import opened DateRoundTrip

  // ---------------------------------------------------------------- the days of the week

  const MONTH_DAYS := [0, 3, 2, 5, 0, 3, 5, 1, 4, 6, 2, 4]

  /** The weekday of a date by its own rule, which knows nothing of day numbers: 0 is Sunday. */
  function Weekday(d: Date): int
    requires 1 <= d.month <= 12
  {
    var y := if d.month < 3 then d.year - 1 else d.year;
    (y + y / 4 - y / 100 + y / 400 + MONTH_DAYS[d.month - 1] + d.day) % 7
  }

  /** 1 January 1970 was a Thursday. */
  lemma EpochWeekday()
    ensures DayOfWeek(DayNumber(Date(1970, 1, 1))) == 4 == Weekday(Date(1970, 1, 1))
  {
  }

  lemma WeekdayIs(d: Date)
    requires IsValid(d)
    ensures DayOfWeek(DayNumber(d)) == Weekday(d)
  {
    hide IsLeapYear, DaysOfMonth;
    var y := MarchYear(d);
    var n := y / 4 - y / 100 + y / 400;
    MonthWeeks(d.month);
    assert DayNumber(d) + 1721120 == d.day + MonthOffset(MarchMonth(d)) + 365 * y + n + 1721120;
    Sevens(y, n + d.day, MonthOffset(MarchMonth(d)), MONTH_DAYS[d.month - 1]);
  }

  lemma MonthWeeks(month: int)
    requires 1 <= month <= 12
    ensures (MonthOffset(if month < 3 then month + 12 else month) + 1721120 - MONTH_DAYS[month - 1]) % 7 == 0
  {
  }

  lemma Sevens(y: int, n: int, offset: int, days: int)
    requires (offset + 1721120 - days) % 7 == 0
    ensures (n + offset + 365 * y + 1721120) % 7 == (y + n + days) % 7
  {
    var k := (offset + 1721120 - days) / 7;
    assert n + offset + 365 * y + 1721120 == (y + n + days) + 7 * (52 * y + k);
  }

  // ---------------------------------------------------------------- the time scale

  /** The scale of a DateTime begins on 15 October 1582, and 1 January 1970 is 122192928000000000
      units of 100 nanoseconds later, the Julian day 2440587.5. */
  lemma TimeScale()
    ensures DateAt(MicrosAt(0)) == Date(1582, 10, 15) && ClockAt(MicrosAt(0)) == Clock(0, 0, 0, 0, 0)
    ensures JulianDay(0) == 2299160.5 && JulianDay(122192928000000000) == 2440587.5
    ensures DateAt(MicrosAt(122192928000000000)) == Date(1970, 1, 1)
    ensures ClockAt(MicrosAt(122192928000000000)) == Clock(0, 0, 0, 0, 0)
    ensures 122192928000000000 == 0x01b21dd2 * 0x1_0000_0000 + 0x13814000
  {
    hide DateOf, ClockOf;
    DayNumbers();
    Midnight(578042);
    Midnight(719469);
    assert MicrosAt(0) == 578042 * DAYS && MicrosAt(122192928000000000) == 719469 * DAYS;
  }

  lemma DayNumbers()
    ensures DateOf(578042) == Date(1582, 10, 15) && DateOf(719469) == Date(1970, 1, 1)
  {
    hide DateOf;
    assert DayNumber(Date(1582, 10, 15)) == 578042 && DayNumber(Date(1970, 1, 1)) == 719469;
    DateOfDayNumber(Date(1582, 10, 15));
    DateOfDayNumber(Date(1970, 1, 1));
  }

  lemma Midnight(day: int)
    ensures DateAt(day * DAYS) == DateOf(day) && ClockAt(day * DAYS) == Clock(0, 0, 0, 0, 0)
  {
    hide DateOf;
    assert day * DAYS / DAYS == day && day * DAYS % DAYS == 0;
  }

  // ---------------------------------------------------------------- numbers

  const DIGITS := "0123456789"

  /** The last so many decimal digits of a number. */
  function Fixed(n: nat, width: nat): string {
    if width == 0 then "" else Fixed(n / 10, width - 1) + [DIGITS[n % 10]]
  }

  function PowerOfTen(k: nat): (p: nat)
    ensures p > 0
  {
    if k == 0 then 1 else 10 * PowerOfTen(k - 1)
  }

  lemma DigitIs(n: int)
    requires 0 <= n <= 9
    ensures Digit(n) == DIGITS[n]
  {
  }

  lemma {:induction false} ZeroPadded(n: nat, width: nat)
    requires width > 0 && n < PowerOfTen(width)
    ensures |Number(n)| <= width && Padded(n, '0', width) == Fixed(n, width)
  {
    hide Digit;
    DigitIs(n % 10);
    if n < 10 {
      ZerosFixed(width - 1);
    } else {
      assert width > 1 by { assert PowerOfTen(1) == 10; }
      ZeroPadded(n / 10, width - 1);
      assert Number(n) == Number(n / 10) + [Digit(n % 10)];
    }
  }

  lemma {:induction false} ZerosFixed(width: nat)
    ensures Repeat('0', width) == Fixed(0, width)
  {
    if width > 0 {
      ZerosFixed(width - 1);
      ZerosBack(width - 1);
    }
  }

  lemma {:induction false} ZerosBack(n: nat)
    ensures ['0'] + Repeat('0', n) == Repeat('0', n) + ['0']
  {
    if n > 0 {
      ZerosBack(n - 1);
    }
  }

  /** A day or a month without zeros. */
  function Short(n: nat): string { if n < 10 then Fixed(n, 1) else Fixed(n, 2) }

  function Spaced(n: nat): string { if n < 10 then " " + Fixed(n, 1) else Fixed(n, 2) }

  lemma ShortNumbers(n: nat)
    requires n < 100
    ensures Number(n) == Short(n) && Padded(n, '0', 2) == Fixed(n, 2) && Padded(n, ' ', 2) == Spaced(n)
  {
    hide Digit, Padded, Number;
    NumberOfTwo(n);
    DigitIs(n % 10);
    DigitIs(n / 10);
    FixedTwo(n);
  }

  lemma FixedTwo(n: nat)
    requires n < 100
    ensures Fixed(n, 1) == [DIGITS[n % 10]] && Fixed(n, 2) == [DIGITS[n / 10], DIGITS[n % 10]]
  {
    assert Fixed(n / 10, 0) == "" && Fixed(n / 10 / 10, 0) == "";
    assert Fixed(n / 10, 1) == [DIGITS[n / 10]];
  }

  // ---------------------------------------------------------------- what each specifier prints

  const WEEKDAYS := ["Sunday", "Monday", "Tuesday", "Wednesday", "Thursday", "Friday", "Saturday"]
  const MONTHS := ["January", "February", "March", "April", "May", "June", "July", "August", "September", "October",
                   "November", "December"]

  function Offset(zone: int, utc: string, colon: string): string {
    if zone == UTC then utc
    else
      var minutes := (if zone < 0 then -zone else zone) / 60;
      (if zone < 0 then "-" else "+") + Fixed(minutes / 60, 2) + colon + Fixed(minutes % 60, 2)
  }

  /** The documented text of each specifier. */
  function Documented(c: char, x: Moment): string
    requires IsMoment(x)
  {
    var (d, t) := (x.date, x.clock);
    var fraction := t.millisecond * 1000 + t.microsecond;
    if c == 'W' then WEEKDAYS[Weekday(d)]
    else if c == 'w' then WEEKDAYS[Weekday(d)][..3]
    else if c == 'B' then MONTHS[d.month - 1]
    else if c == 'b' then MONTHS[d.month - 1][..3]
    else if c == 'd' then Fixed(d.day, 2)
    else if c == 'e' then Short(d.day)
    else if c == 'f' then Spaced(d.day)
    else if c == 'm' then Fixed(d.month, 2)
    else if c == 'n' then Short(d.month)
    else if c == 'o' then Spaced(d.month)
    else if c == 'y' then Fixed(d.year, 2)
    else if c == 'Y' then Fixed(d.year, 4)
    else if c == 'H' then Fixed(t.hour, 2)
    else if c == 'h' then Fixed((t.hour + 11) % 12 + 1, 2)
    else if c == 'a' then if t.hour >= 12 then "pm" else "am"
    else if c == 'A' then if t.hour >= 12 then "PM" else "AM"
    else if c == 'M' then Fixed(t.minute, 2)
    else if c == 'S' then Fixed(t.second, 2)
    else if c == 's' then Fixed(t.second, 2) + "." + Fixed(fraction, 6)
    else if c == 'i' then Fixed(t.millisecond, 3)
    else if c == 'c' then Fixed(t.millisecond / 100, 1)
    else if c == 'F' then Fixed(fraction, 6)
    else if c == 'z' then Offset(x.zone, "Z", ":")
    else if c == 'Z' then Offset(x.zone, "GMT", "")
    else [c]
  }

  /** Every specifier prints what is documented, for every date and time and every offset of less
      than 100 hours. */
  lemma PieceIsDocumented(c: char, x: Moment)
    requires IsMoment(x) && (x.zone == UTC || -360000 < x.zone < 360000)
    ensures Piece(c, x) == Documented(c, x)
  {
    hide Padded, Number, Fixed, DayNumber, DayOfWeek, Weekday, ZoneText, Offset, IsLeapYear, MonthName, WeekdayName;
    var (d, t) := (x.date, x.clock);
    if c == 'w' || c == 'W' {
      WeekdayIs(d);
      WeekdayRange(d);
      NamesAre(Weekday(d), d.month);
    } else if c == 'b' || c == 'B' {
      NamesAre(0, d.month);
    } else if c == 'z' || c == 'Z' {
      ZoneIs(x.zone, "Z", ":");
      ZoneIs(x.zone, "GMT", "");
    } else {
      NumbersAre(c, x);
    }
  }

  lemma WeekdayRange(d: Date)
    requires 1 <= d.month <= 12
    ensures 0 <= Weekday(d) <= 6
  {
    hide MONTH_DAYS;
  }

  lemma NamesAre(day: int, month: int)
    requires 0 <= day <= 6 && 1 <= month <= 12
    ensures WeekdayName(day) == WEEKDAYS[day] && MonthName(month) == MONTHS[month - 1]
  {
  }

  lemma ZoneIs(zone: int, utc: string, colon: string)
    requires zone == UTC || -360000 < zone < 360000
    ensures ZoneText(zone, utc, colon) == Offset(zone, utc, colon)
  {
    hide Padded, Fixed;
    if zone != UTC {
      var seconds := if zone < 0 then -zone else zone;
      Minutes(seconds);
      ShortNumbers(seconds / 3600);
      ShortNumbers(seconds % 3600 / 60);
    }
  }

  lemma Minutes(seconds: nat)
    ensures seconds / 60 / 60 == seconds / 3600 && seconds / 60 % 60 == seconds % 3600 / 60
  {
  }

  lemma NumbersAre(c: char, x: Moment)
    requires IsMoment(x) && c !in "wWbBzZ"
    ensures Piece(c, x) == Documented(c, x)
  {
    hide Padded, Number, Fixed, DayNumber, DayOfWeek, Weekday, ZoneText, Offset, IsLeapYear, MonthName, WeekdayName,
      Short, Spaced;
    var (d, t) := (x.date, x.clock);
    ShortNumbers(d.day);
    ShortNumbers(d.month);
    ShortNumbers(d.year % 100);
    LastTwo(d.year);
    ShortNumbers(t.hour);
    ShortNumbers(HourAmPm(t.hour));
    TwelveHours(t.hour);
    ShortNumbers(t.minute);
    ShortNumbers(t.second);
    ShortNumbers(t.millisecond / 100);
    OneDigit(t.millisecond / 100);
    Powers();
    ZeroPadded(d.year, 4);
    ZeroPadded(t.millisecond, 3);
    ZeroPadded(t.millisecond * 1000 + t.microsecond, 6);
  }

  lemma LastTwo(n: nat)
    ensures Fixed(n % 100, 2) == Fixed(n, 2)
  {
    hide Fixed;
    LastDigits(n);
    FixedMore(n, 1);
    FixedMore(n / 10, 0);
    FixedMore(n % 100, 1);
    FixedMore(n % 100 / 10, 0);
    NoneLeft(n / 10 / 10);
    NoneLeft(n % 100 / 10 / 10);
  }

  lemma LastDigits(n: nat)
    ensures n % 100 % 10 == n % 10 && n % 100 / 10 % 10 == n / 10 % 10
  {
  }

  lemma NoneLeft(n: nat)
    ensures Fixed(n, 0) == ""
  {
  }

  lemma OneDigit(n: nat)
    requires n < 10
    ensures Short(n) == Fixed(n, 1)
  {
    hide Fixed;
  }

  lemma TwelveHours(hour: int)
    requires 0 <= hour <= 23
    ensures HourAmPm(hour) == (hour + 11) % 12 + 1
  {
  }

  lemma Powers()
    ensures PowerOfTen(3) == 1000 && PowerOfTen(4) == 10000 && PowerOfTen(6) == 1000000
  {
    assert PowerOfTen(1) == 10 && PowerOfTen(2) == 100 && PowerOfTen(5) == 100000;
  }

  // ---------------------------------------------------------------- the standard formats

  function IsoText(separator: string, x: Moment): string
    requires IsMoment(x)
  {
    Documented('Y', x) + "-" + Documented('m', x) + "-" + Documented('d', x) + separator
    + Documented('H', x) + ":" + Documented('M', x) + ":"
  }

  function RfcText(weekday: char, day: char, separator: string, year: char, x: Moment): string
    requires IsMoment(x)
  {
    Documented(weekday, x) + ", " + Documented(day, x) + separator + Documented('b', x) + separator
        + Documented(year, x)
    + " " + Documented('H', x) + ":" + Documented('M', x) + ":" + Documented('S', x) + " " + Documented('Z', x)
  }

  /** The text of each standard format. */
  function StandardText(f: Standard, x: Moment): string
    requires IsMoment(x)
  {
    match f
    case Iso => IsoText("T", x) + Documented('S', x) + Documented('z', x)
    case IsoFrac => IsoText("T", x) + Documented('s', x) + Documented('z', x)
    case Rfc822 => RfcText('w', 'e', " ", 'y', x)
    case Rfc1123 => RfcText('w', 'e', " ", 'Y', x)
    case Http => RfcText('w', 'd', " ", 'Y', x)
    case Rfc850 => RfcText('W', 'e', "-", 'y', x)
    case Rfc1036 => RfcText('W', 'e', " ", 'y', x)
    case Asctime =>
      Documented('w', x) + " " + Documented('b', x) + " " + Documented('f', x) + " " + Documented('H', x) + ":"
      + Documented('M', x) + ":" + Documented('S', x) + " " + Documented('Y', x)
    case Sortable => IsoText(" ", x) + Documented('S', x)
  }

  function Joined(chs: seq<Chunk>, x: Moment): string
    requires IsMoment(x)
  {
    if chs == [] then ""
    else Joined(chs[..|chs| - 1], x) + chs[|chs| - 1].lit + Documented(chs[|chs| - 1].print_, x)
  }

  lemma {:induction false} PiecesJoined(chs: seq<Chunk>, x: Moment)
    requires IsMoment(x) && (x.zone == UTC || -360000 < x.zone < 360000)
    ensures Pieces(chs, x) == Joined(chs, x)
  {
    hide Piece, Documented, IsMoment;
    if chs != [] {
      var n := |chs| - 1;
      PiecesJoined(chs[..n], x);
      LastPiece(chs, x);
      PieceIsDocumented(chs[n].print_, x);
    }
  }

  lemma {:induction false} LastPiece(chs: seq<Chunk>, x: Moment)
    requires IsMoment(x) && chs != []
    ensures var n := |chs| - 1;
            Pieces(chs, x) == Pieces(chs[..n], x) + chs[n].lit + Piece(chs[n].print_, x)
  {
    hide Piece, IsMoment;
    var n := |chs| - 1;
    if n == 0 {
      assert chs[1..] == [] && chs[..0] == [];
    } else {
      LastPiece(chs[1..], x);
      assert chs[1..][..n - 1] == chs[..n][1..];
    }
  }

  /** What a standard format prints, for every date and time and every offset of less than 100 hours. */
  lemma StandardIs(f: Standard, x: Moment)
    requires IsMoment(x) && (x.zone == UTC || -360000 < x.zone < 360000)
    ensures Format(FormatString(f), x) == StandardText(f, x)
  {
    hide Documented, Format, Pieces, PrintFormat, Joined, IsoText, RfcText, IsMoment, FormatString;
    ChunksPrint(f);
    ChunksQuiet(f);
    FormatPieces(Chunks(f), x);
    PiecesJoined(Chunks(f), x);
    if f.Asctime? {
      AsctimeJoined(x);
    } else if f.Iso? || f.IsoFrac? || f.Sortable? {
      IsoJoined(f, x);
    } else {
      RfcIs(f, x);
    }
  }

  lemma ChunksQuiet(f: Standard)
    ensures forall i :: 0 <= i < |Chunks(f)| ==> NoPercent(Chunks(f)[i].lit)
  {
  }

  lemma JoinedMore(chs: seq<Chunk>, c: Chunk, x: Moment)
    requires IsMoment(x)
    ensures Joined(chs + [c], x) == Joined(chs, x) + c.lit + Documented(c.print_, x)
  {
    hide Documented, IsMoment;
    assert (chs + [c])[..|chs|] == chs;
  }

  lemma JoinedNothing(x: Moment)
    requires IsMoment(x)
    ensures Joined([], x) == ""
  {
  }

  lemma JoinedTwo(chs: seq<Chunk>, a: Chunk, b: Chunk, x: Moment)
    requires IsMoment(x)
    ensures Joined(chs + [a, b], x)
            == Joined(chs, x) + a.lit + Documented(a.print_, x) + b.lit + Documented(b.print_, x)
  {
    hide Documented, Joined, IsMoment;
    assert chs + [a] + [b] == chs + [a, b];
    JoinedMore(chs, a, x);
    JoinedMore(chs + [a], b, x);
  }

  lemma TimeJoined(chs: seq<Chunk>, x: Moment)
    requires IsMoment(x)
    ensures Joined(chs + [Chunk(" ", 'H', 'H'), Chunk(":", 'M', 'M'), Chunk(":", 'S', 'S')], x) ==
            Joined(chs, x) + " " + Documented('H', x) + ":" + Documented('M', x) + ":" + Documented('S', x)
  {
    hide Documented, Joined, IsMoment;
    var h, m, s := Chunk(" ", 'H', 'H'), Chunk(":", 'M', 'M'), Chunk(":", 'S', 'S');
    assert chs + [h, m, s] == chs + [h, m] + [s];
    JoinedTwo(chs, h, m, x);
    JoinedMore(chs + [h, m], s, x);
  }

  lemma AsctimeJoined(x: Moment)
    requires IsMoment(x)
    ensures Joined(Chunks(Asctime), x) == StandardText(Asctime, x)
  {
    hide Documented, Joined, IsMoment;
    var w, b, d := Chunk("", 'w', 'w'), Chunk(" ", 'b', 'b'), Chunk(" ", 'f', 'f');
    JoinedNothing(x);
    JoinedTwo([], w, b, x);
    JoinedMore([w, b], d, x);
    TimeJoined([w, b, d], x);
    var time := [Chunk(" ", 'H', 'H'), Chunk(":", 'M', 'M'), Chunk(":", 'S', 'S')];
    JoinedMore([w, b, d] + time, Chunk(" ", 'Y', 'Y'), x);
    assert [] + [w, b] == [w, b] && [w, b] + [d] == [w, b, d];
    assert Chunks(Asctime) == [w, b, d] + time + [Chunk(" ", 'Y', 'Y')];
  }

  lemma IsoJoined(f: Standard, x: Moment)
    requires IsMoment(x) && (f.Iso? || f.IsoFrac? || f.Sortable?)
    ensures Joined(Chunks(f), x) == StandardText(f, x)
  {
    hide Documented, Joined, IsMoment;
    var separator := if f.Sortable? then " " else "T";
    IsoDateJoined(separator, x);
    var second := Chunk(":", if f.IsoFrac? then 's' else 'S', if f.IsoFrac? then 's' else 'S');
    JoinedMore(IsoDate(separator), second, x);
    if !f.Sortable? {
      JoinedTwo(IsoDate(separator), second, Chunk("", 'z', 'z'), x);
    }
  }

  lemma IsoDateJoined(separator: string, x: Moment)
    requires IsMoment(x)
    ensures Joined(IsoDate(separator), x) + ":" == IsoText(separator, x)
  {
    hide Documented, Joined, IsMoment;
    var y, m, d := Chunk("", 'Y', 'Y'), Chunk("-", 'm', 'm'), Chunk("-", 'd', 'd');
    var h, n := Chunk(separator, 'H', 'H'), Chunk(":", 'M', 'M');
    JoinedNothing(x);
    JoinedTwo([], y, m, x);
    JoinedTwo([y, m], d, h, x);
    JoinedMore([y, m, d, h], n, x);
    assert [] + [y, m] == [y, m] && [y, m] + [d, h] == [y, m, d, h] && [y, m, d, h] + [n] == IsoDate(separator);
  }

  lemma RfcIs(f: Standard, x: Moment)
    requires IsMoment(x) && (IsShort(f) || IsLong(f))
    ensures Joined(Chunks(f), x) == StandardText(f, x)
  {
    hide Documented, Joined, IsMoment, RfcText, RfcDate;
    if IsShort(f) {
      RfcJoined('w', if f.Http? then 'd' else 'e', ' ', if f.Rfc822? then 'y' else 'Y', x);
    } else {
      RfcJoined('W', 'e', if f.Rfc850? then '-' else ' ', 'y', x);
    }
    assert [' '] == " " && ['-'] == "-";
  }

  lemma RfcJoined(weekday: char, day: char, separator: char, year: char, x: Moment)
    requires IsMoment(x)
    ensures Joined(RfcDate(weekday, day, separator, year), x) == RfcText(weekday, day, [separator], year, x)
  {
    hide Documented, Joined, IsMoment;
    var w, d := Chunk("", weekday, weekday), Chunk(", ", day, 'e');
    var b, y := Chunk([separator], 'b', 'b'), Chunk([separator], year, 'r');
    JoinedNothing(x);
    JoinedTwo([], w, d, x);
    JoinedTwo([w, d], b, y, x);
    TimeJoined([w, d, b, y], x);
    var time := [Chunk(" ", 'H', 'H'), Chunk(":", 'M', 'M'), Chunk(":", 'S', 'S')];
    JoinedMore([w, d, b, y] + time, Chunk(" ", 'Z', 'Z'), x);
    assert [] + [w, d] == [w, d] && [w, d] + [b, y] == [w, d, b, y];
    assert RfcDate(weekday, day, separator, year) == [w, d, b, y] + time + [Chunk(" ", 'Z', 'Z')];
  }

  // ---------------------------------------------------------------- the documented examples

  const NOON := Moment(Date(2005, 1, 1), Clock(12, 0, 0, 0, 0), 3600)

  /** Noon of 1 January 2005, a Saturday, one hour ahead of UTC. */
  lemma NoonPieces()
    ensures IsMoment(NOON) && Documented('w', NOON) == "Sat" && Documented('W', NOON) == "Saturday"
    ensures Documented('b', NOON) == "Jan" && Documented('d', NOON) == "01" && Documented('m', NOON) == "01"
    ensures Documented('e', NOON) == "1" && Documented('f', NOON) == " 1"
    ensures Documented('y', NOON) == "05" && Documented('Y', NOON) == "2005"
    ensures Documented('H', NOON) == "12" && Documented('M', NOON) == "00" && Documented('S', NOON) == "00"
    ensures Documented('s', NOON) == "00.000000" && Documented('z', NOON) == "+01:00"
            && Documented('Z', NOON) == "+0100"
  {
    hide Fixed;
    assert Weekday(NOON.date) == 6;
    FixedTwo(0);
    FixedTwo(1);
    FixedTwo(5);
    FixedTwo(12);
    LastTwo(2005);
    FixedTwo(20);
    FixedFour();
    FixedSix();
  }

  lemma FixedMore(n: nat, width: nat)
    ensures Fixed(n, width + 1) == Fixed(n / 10, width) + [DIGITS[n % 10]]
  {
  }

  lemma FixedFour()
    ensures Fixed(2005, 4) == "2005"
  {
    hide Fixed;
    FixedMore(2005, 3);
    FixedMore(200, 2);
    FixedTwo(20);
    assert "20" + "0" == "200" && "200" + "5" == "2005";
  }

  lemma FixedSix()
    ensures Fixed(0, 6) == "000000"
  {
    assert Fixed(0, 2) == "00" by { FixedTwo(0); }
    assert Fixed(0, 3) == "000" && Fixed(0, 4) == "0000" && Fixed(0, 5) == "00000";
  }

  /** The documented examples of all nine formats. */
  function Example(f: Standard): string {
    match f
    case Iso => "2005" + "-" + "01" + "-" + "01" + "T" + "12" + ":" + "00" + ":" + "00" + "+01:00"
    case IsoFrac => "2005" + "-" + "01" + "-" + "01" + "T" + "12" + ":" + "00" + ":" + "00.000000" + "+01:00"
    case Rfc822 => "Sat" + ", " + "1" + " " + "Jan" + " " + "05" + " " + "12" + ":" + "00" + ":" + "00" + " " + "+0100"
    case Rfc1123 =>
      "Sat" + ", " + "1" + " " + "Jan" + " " + "2005" + " " + "12" + ":" + "00" + ":" + "00" + " " + "+0100"
    case Http => "Sat" + ", " + "01" + " " + "Jan" + " " + "2005" + " " + "12" + ":" + "00" + ":" + "00" + " " + "+0100"
    case Rfc850 =>
      "Saturday" + ", " + "1" + "-" + "Jan" + "-" + "05" + " " + "12" + ":" + "00" + ":" + "00" + " " + "+0100"
    case Rfc1036 =>
      "Saturday" + ", " + "1" + " " + "Jan" + " " + "05" + " " + "12" + ":" + "00" + ":" + "00" + " " + "+0100"
    case Asctime => "Sat" + " " + "Jan" + " " + " 1" + " " + "12" + ":" + "00" + ":" + "00" + " " + "2005"
    case Sortable => "2005" + "-" + "01" + "-" + "01" + " " + "12" + ":" + "00" + ":" + "00"
  }

  lemma ExamplePrinted(f: Standard)
    ensures IsMoment(NOON) && Format(FormatString(f), NOON) == Example(f)
  {
    hide Documented, Format, FormatString;
    NoonPieces();
    StandardIs(f, NOON);
  }

  // ---------------------------------------------------------------- zones by name

  const ZONE_NAMES := ["Z", "UT", "GMT", "BST", "IST", "WET", "WEST", "CET", "CEST", "EET", "EEST", "MSK", "MSD", "NST",
                       "NDT", "AST", "ADT", "EST", "EDT", "CST", "CDT", "MST", "MDT", "PST", "PDT", "AKST", "AKDT",
                       "HST", "AEST", "AEDT", "ACST", "ACDT", "AWST", "AWDT"]

  /** Their offsets in half hours. */
  const HALF_HOURS := [0, 0, 0, 2, 2, 0, 2, 2, 4, 4, 6, 6, 8, -7, -5, -8, -6,
                       -10, -8, -12, -10, -14, -12, -16, -14, -18, -16, -20, 20, 22, 19, 21, 16, 18]

  lemma ZoneTable(i: nat)
    requires i < 34
    ensures |ZONES| == |ZONE_NAMES| == |HALF_HOURS| == 34
    ensures ZONES[i] == (ZONE_NAMES[i], HALF_HOURS[i] * 1800)
  {
  }

  /** Every designator is found, and no two are alike. */
  lemma NamesDiffer(i: nat, j: nat)
    requires i < j < 34
    ensures ZONE_NAMES[i] != ZONE_NAMES[j]
  {
  }

  lemma {:induction false} ZoneFound(zones: seq<(string, int)>, i: nat)
    requires i < |zones| && forall j :: 0 <= j < i ==> zones[j].0 != zones[i].0
    ensures ZoneOf(zones[i].0, zones) == zones[i].1
  {
    if i > 0 {
      assert forall j :: 0 <= j < i - 1 ==> zones[1..][j] == zones[j + 1];
      ZoneFound(zones[1..], i - 1);
    }
  }

  lemma {:induction false} ZoneUnknown(name: string, zones: seq<(string, int)>)
    requires forall j :: 0 <= j < |zones| ==> zones[j].0 != name
    ensures ZoneOf(name, zones) == 0
  {
    if zones != [] {
      ZoneUnknown(name, zones[1..]);
    }
  }

  lemma DesignatorLetters(i: nat)
    requires i < 34
    ensures 1 <= |ZONE_NAMES[i]| <= 4 && forall k :: 0 <= k < |ZONE_NAMES[i]| ==> 'A' <= ZONE_NAMES[i][k] <= 'Z'
  {
  }

  lemma {:induction false} LettersTaken(s: string, n: nat)
    requires |s| <= n && forall k :: 0 <= k < |s| ==> IsLetter(s[k])
    ensures TakeLetters(s, n) == s
  {
    if s != "" {
      LettersTaken(s[1..], n - 1);
    }
  }

  /** Each designator is read as its offset; one that is not known, as none. */
  lemma DesignatorRead(i: nat)
    requires i < 34
    ensures TakeZone(ZONE_NAMES[i]) == (HALF_HOURS[i] * 1800, "")
  {
    hide TakeLetters, ZoneOf, TakeOffset, DropBlanks, ZONES, ZONE_NAMES, HALF_HOURS;
    ZoneTable(i);
    var name := ZONE_NAMES[i];
    DesignatorLetters(i);
    LettersTaken(name, 4);
    NoBlanks(name);
    forall j | 0 <= j < i ensures ZONES[j].0 != ZONES[i].0 {
      NamesDiffer(j, i);
      ZoneTable(j);
    }
    ZoneFound(ZONES, i);
    TakeNoOffset();
    assert name[|name|..] == "";
  }

  lemma NoBlanks(s: string)
    requires s != "" && 'A' <= s[0] <= 'Z'
    ensures DropBlanks(s) == s
  {
  }

  /** The halves of the day: each hour, printed with am or pm, is read back. */
  lemma HalfDayRead(hour: int)
    requires 0 <= hour <= 23
    ensures TakeAmPm(if hour >= 12 then "PM" else "AM", HourAmPm(hour)) == Some((hour, ""))
    ensures TakeAmPm(if hour >= 12 then "pm" else "am", HourAmPm(hour)) == Some((hour, ""))
  {
    hide TakeAmPm, HourAmPm;
    HalfRead("AM", HourAmPm(hour));
    HalfRead("PM", HourAmPm(hour));
    HalfRead("am", HourAmPm(hour));
    HalfRead("pm", HourAmPm(hour));
    HourBack(hour);
  }

  lemma HourBack(hour: int)
    requires 0 <= hour <= 23
    ensures var h := HourAmPm(hour);
            hour == if hour >= 12 then (if h < 12 then h + 12 else h) else if h == 12 then 0 else h
  {
  }

  lemma HalfRead(s: string, hour: int)
    requires s == "AM" || s == "PM" || s == "am" || s == "pm"
    ensures TakeAmPm(s, hour) ==
            Some((if s == "AM" || s == "am" then (if hour == 12 then 0 else hour) else if hour < 12 then hour + 12
                else hour,
                  ""))
  {
    hide Letters, DropLetters, DropBlanksAndMarks, UpperAll;
    HalfDayLetters(s);
  }

  lemma HalfDayLetters(s: string)
    requires s == "AM" || s == "PM" || s == "am" || s == "pm"
    ensures DropBlanksAndMarks(s) == s && Letters(s) == s && DropLetters(s) == ""
    ensures UpperAll(s) == if s == "AM" || s == "am" then "AM" else "PM"
  {
    var u := s[1..];
    assert u == [s[1]] && u[1..] == "";
    assert Letters(u) == u && UpperAll(u) == [ToUpper(s[1])] && DropLetters(u) == "";
    assert [s[0]] + u == s;
    assert UpperAll(s) == [ToUpper(s[0])] + [ToUpper(s[1])];
  }
}
