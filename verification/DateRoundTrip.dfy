/** The standard date formats, printed and read back by the parser that detects them. */
module DateRoundTrip {
  import opened Options
  import opened Calendar
  import opened DateFormats
  import opened DateText

  datatype Standard = Iso | IsoFrac | Rfc822 | Rfc1123 | Http | Rfc850 | Rfc1036 | Asctime | Sortable

  /** The format a standard format is printed with. */
  function FormatString(f: Standard): string {
    match f
    case Iso => ISO8601
    case IsoFrac => ISO8601_FRAC
    case Rfc822 => RFC822
    case Rfc1123 => RFC1123
    case Http => HTTP
    case Rfc850 => RFC850
    case Rfc1036 => RFC1036
    case Asctime => ASCTIME
    case Sortable => SORTABLE
  }

  /** The dates that begin with an abbreviated weekday, and those that begin with a full one. */
  predicate IsShort(f: Standard) { f.Rfc822? || f.Rfc1123? || f.Http? }

  predicate IsLong(f: Standard) { f.Rfc850? || f.Rfc1036? }

  /** The format it is read with. */
  function ReadString(f: Standard): string {
    if IsShort(f) then SHORT_WEEKDAY else if IsLong(f) then LONG_WEEKDAY else FormatString(f)
  }

  /** Both, chunk by chunk. */
  function Chunks(f: Standard): seq<Chunk> {
    match f
    case Iso => IsoDate("T") + [Chunk(":", 'S', 'S'), Chunk("", 'z', 'z')]
    case IsoFrac => IsoDate("T") + [Chunk(":", 's', 's'), Chunk("", 'z', 'z')]
    case Rfc822 => RfcDate('w', 'e', ' ', 'y')
    case Rfc1123 => RfcDate('w', 'e', ' ', 'Y')
    case Http => RfcDate('w', 'd', ' ', 'Y')
    case Rfc850 => RfcDate('W', 'e', '-', 'y')
    case Rfc1036 => RfcDate('W', 'e', ' ', 'y')
    case Asctime =>
      [Chunk("", 'w', 'w'), Chunk(" ", 'b', 'b'), Chunk(" ", 'f', 'f'), Chunk(" ", 'H', 'H'), Chunk(":", 'M', 'M'),
       Chunk(":", 'S', 'S'), Chunk(" ", 'Y', 'Y')]
    case Sortable => IsoDate(" ") + [Chunk(":", 'S', 'S')]
  }

  function IsoDate(separator: string): seq<Chunk> {
    [Chunk("", 'Y', 'Y'), Chunk("-", 'm', 'm'), Chunk("-", 'd', 'd'), Chunk(separator, 'H', 'H'), Chunk(":", 'M', 'M')]
  }

  function RfcDate(weekday: char, day: char, separator: char, year: char): seq<Chunk> {
    [Chunk("", weekday, weekday), Chunk(", ", day, 'e'), Chunk([separator], 'b', 'b'), Chunk([separator], year, 'r'),
     Chunk(" ", 'H', 'H'), Chunk(":", 'M', 'M'), Chunk(":", 'S', 'S'), Chunk(" ", 'Z', 'Z')]
  }

  function RfcString(weekday: char, day: char, separator: char, year: char): string {
    "%" + [weekday] + ", %" + [day] + [separator] + "%b" + [separator] + "%" + [year] + " %H:%M:%S %Z"
  }

  /** The specifiers that print and those that read, with the text in front of them. */
  function Printed(c: Chunk): string { c.lit + ['%', c.print_] }

  lemma From(chs: seq<Chunk>, i: nat)
    requires i < |chs|
    ensures PrintFormat(chs[i..]) == Printed(chs[i]) + PrintFormat(chs[i + 1..])
  {
    assert chs[i..][1..] == chs[i + 1..];
  }

  lemma AtEnd(chs: seq<Chunk>)
    ensures chs[0..] == chs && PrintFormat(chs[|chs|..]) == ""
  {
  }

  lemma SixChunks(chs: seq<Chunk>)
    requires |chs| >= 6
    ensures PrintFormat(chs) == Printed(chs[0]) + (Printed(chs[1]) + (Printed(chs[2]) + (Printed(chs[3])
                                + (Printed(chs[4]) + (Printed(chs[5]) + PrintFormat(chs[6..]))))))
  {
    hide PrintFormat, Printed;
    AtEnd(chs);
    From(chs, 0);
    From(chs, 1);
    From(chs, 2);
    From(chs, 3);
    From(chs, 4);
    From(chs, 5);
  }

  /** The chunks a text is read with, as chunks that print. */
  function AsRead(chs: seq<Chunk>): seq<Chunk> {
    seq(|chs|, i requires 0 <= i < |chs| => chs[i].(print_ := chs[i].read))
  }

  lemma {:induction false} ReadIsPrinted(chs: seq<Chunk>)
    ensures ReadFormat(chs) == PrintFormat(AsRead(chs))
  {
    if chs != [] {
      ReadIsPrinted(chs[1..]);
      assert AsRead(chs)[1..] == AsRead(chs[1..]);
    }
  }

  lemma IsoDateFormat(chs: seq<Chunk>, separator: char)
    requires |chs| >= 6 && chs[..5] == IsoDate([separator]) && chs[5].lit == ":"
    ensures PrintFormat(chs) == "%Y-%m-%d" + [separator] + "%H:%M:%" + [chs[5].print_] + PrintFormat(chs[6..])
  {
    hide PrintFormat, Printed;
    IsoDatePrinted(chs, separator);
    SixChunks(chs);
    var c, s := [chs[5].print_], PrintFormat(chs[6..]);
    hide IsoDate;
    TimeText(separator, c, s);
  }

  lemma IsoDatePrinted(chs: seq<Chunk>, separator: char)
    requires |chs| >= 6 && chs[..5] == IsoDate([separator]) && chs[5].lit == ":"
    ensures Printed(chs[0]) == "%Y" && Printed(chs[1]) == "-%m" && Printed(chs[2]) == "-%d"
    ensures Printed(chs[3]) == [separator, '%', 'H'] && Printed(chs[4]) == ":%M"
            && Printed(chs[5]) == ":%" + [chs[5].print_]
  {
    forall i | 0 <= i < 5 ensures chs[i] == IsoDate([separator])[i] { assert chs[..5][i] == chs[i]; }
  }

  lemma TimeText(separator: char, c: string, s: string)
    ensures "%Y" + ("-%m" + ("-%d" + ([separator, '%', 'H'] + (":%M" + (":%" + c + s))))) ==
            "%Y-%m-%d" + [separator] + "%H:%M:%" + c + s
  {
    var t := ":%M:%" + c + s;
    assert ":%M" + (":%" + c + s) == t;
    assert [separator, '%', 'H'] + t == [separator] + "%H:%M:%" + c + s;
  }

  lemma IsoChunks(f: Standard)
    requires f.Iso? || f.IsoFrac? || f.Sortable?
    ensures PrintFormat(Chunks(f)) == FormatString(f)
  {
    hide PrintFormat;
    var chs := Chunks(f);
    AtEnd(chs);
    if f.Sortable? {
      IsoDateFormat(chs, ' ');
    } else {
      IsoDateFormat(chs, 'T');
      From(chs, 6);
    }
  }

  const CLOCK_CHUNKS := [Chunk(" ", 'H', 'H'), Chunk(":", 'M', 'M'), Chunk(":", 'S', 'S'), Chunk(" ", 'Z', 'Z')]

  lemma ClockChunks()
    ensures PrintFormat(CLOCK_CHUNKS) == " %H:%M:%S %Z"
  {
    hide PrintFormat;
    var chs := CLOCK_CHUNKS;
    AtEnd(chs);
    From(chs, 0);
    From(chs, 1);
    From(chs, 2);
    From(chs, 3);
  }

  lemma RfcChunks(weekday: char, day: char, separator: char, year: char)
    ensures PrintFormat(RfcDate(weekday, day, separator, year)) == RfcString(weekday, day, separator, year)
  {
    hide PrintFormat;
    var chs := RfcDate(weekday, day, separator, year);
    ClockChunks();
    assert chs[4..] == CLOCK_CHUNKS;
    AtEnd(chs);
    From(chs, 0);
    From(chs, 1);
    From(chs, 2);
    From(chs, 3);
    var s := " %H:%M:%S %Z";
    assert PrintFormat(chs[3..]) == [separator] + "%" + [year] + s;
    assert PrintFormat(chs[2..]) == [separator] + "%b" + ([separator] + "%" + [year] + s);
    assert PrintFormat(chs[1..]) == ", %" + [day] + ([separator] + "%b" + ([separator] + "%" + [year] + s));
  }

  lemma AsctimeChunks()
    ensures PrintFormat(Chunks(Asctime)) == ASCTIME
  {
    hide PrintFormat;
    var chs := Chunks(Asctime);
    AtEnd(chs);
    SixChunks(chs);
    From(chs, 6);
  }

  lemma Rfc822String()
    ensures RFC822 == RfcString('w', 'e', ' ', 'y')
  {
  }

  lemma Rfc1123String()
    ensures RFC1123 == RfcString('w', 'e', ' ', 'Y')
  {
  }

  lemma HttpString()
    ensures HTTP == RfcString('w', 'd', ' ', 'Y')
  {
  }

  lemma Rfc850String()
    ensures RFC850 == RfcString('W', 'e', '-', 'y')
  {
  }

  lemma Rfc1036String()
    ensures RFC1036 == RfcString('W', 'e', ' ', 'y')
  {
  }

  lemma ReadStrings()
    ensures SHORT_WEEKDAY == RfcString('w', 'e', ' ', 'r') && LONG_WEEKDAY == RfcString('W', 'e', ' ', 'r')
  {
  }

  lemma ChunksPrint(f: Standard)
    ensures PrintFormat(Chunks(f)) == FormatString(f)
  {
    hide PrintFormat, IsoDate, RfcDate, RfcString;
    Rfc822String();
    Rfc1123String();
    HttpString();
    Rfc850String();
    Rfc1036String();
    if f.Asctime? {
      AsctimeChunks();
    } else if f.Iso? || f.IsoFrac? || f.Sortable? {
      IsoChunks(f);
    } else if IsShort(f) {
      RfcChunks('w', if f.Http? then 'd' else 'e', ' ', if f.Rfc822? then 'y' else 'Y');
    } else {
      RfcChunks('W', 'e', if f.Rfc850? then '-' else ' ', 'y');
    }
  }

  /** The format a text is read with has the specifiers of the chunks; what stands between
      them does not matter. */
  lemma ChunksRead(f: Standard, r: Reading)
    ensures Read(ReadString(f), r) == Read(ReadFormat(Chunks(f)), r)
  {
    hide PrintFormat, ReadFormat, Read, RfcString;
    ReadIsPrinted(Chunks(f));
    if IsShort(f) || IsLong(f) {
      hide Chunks, RfcDate, NoPercent;
      var w := if IsShort(f) then 'w' else 'W';
      var read := RfcDate(w, 'e', ' ', 'r');
      RfcChunks(w, 'e', ' ', 'r');
      ReadStrings();
      ReadIsPrinted(read);
      RfcSpecifiers(f);
      SameSpecifiers(Chunks(f), read, r);
    } else {
      assert AsRead(Chunks(f)) == Chunks(f);
      ChunksPrint(f);
    }
  }

  lemma RfcSpecifiers(f: Standard)
    requires IsShort(f) || IsLong(f)
    ensures var (a, b) := (Chunks(f), RfcDate(if IsShort(f) then 'w' else 'W', 'e', ' ', 'r'));
            && AsRead(b) == b && |a| == |b|
            && forall i :: 0 <= i < |a| ==> a[i].read == b[i].read && NoPercent(a[i].lit) && NoPercent(b[i].lit)
  {
  }

  lemma {:induction false} SameSpecifiers(a: seq<Chunk>, b: seq<Chunk>, r: Reading)
    requires |a| == |b| && forall i :: 0 <= i < |a| ==>
               a[i].read == b[i].read && NoPercent(a[i].lit) && NoPercent(b[i].lit)
    ensures Read(ReadFormat(a), r) == Read(ReadFormat(b), r)
    decreases |a|
  {
    hide NoPercent, ReadSpec;
    if a == [] || r.rest == "" {
      ReadsNoMore(a, r);
      ReadsNoMore(b, r);
    } else {
      hide Read, ReadFormat;
      ReadChunk(a, r);
      ReadChunk(b, r);
      var q := ReadSpec(a[0].read, r);
      if q.Some? {
        assert forall i :: 0 <= i < |a| - 1 ==> a[1..][i] == a[i + 1] && b[1..][i] == b[i + 1];
        SameSpecifiers(a[1..], b[1..], q.value);
      }
    }
  }

  lemma ReadsNoMore(chs: seq<Chunk>, r: Reading)
    requires chs == [] || r.rest == ""
    ensures Read(ReadFormat(chs), r) == Some(r)
  {
  }

  // ---------------------------------------------------------------- they can be read back

  lemma IsoFits(f: Standard)
    requires f.Iso? || f.IsoFrac? || f.Sortable?
    ensures forall i :: 0 <= i < |Chunks(f)| ==> Fits(Chunks(f)[i], NextOf(Chunks(f), i))
  {
    hide Fits;
    var chs := Chunks(f);
    IsoDateFits(if f.Sortable? then " " else "T");
    IsoTimeFits();
    assert Fits(chs[0], Some(chs[1])) && Fits(chs[1], Some(chs[2])) && Fits(chs[2], Some(chs[3]));
    assert Fits(chs[3], Some(chs[4])) && Fits(chs[4], Some(chs[5])) && Fits(chs[5], NextOf(chs, 5));
  }

  lemma IsoDateFits(separator: string)
    requires separator == " " || separator == "T"
    ensures var chs := IsoDate(separator);
            && Fits(chs[0], Some(chs[1])) && Fits(chs[1], Some(chs[2])) && Fits(chs[2], Some(chs[3]))
            && Fits(chs[3], Some(chs[4]))
  {
  }

  lemma IsoTimeFits()
    ensures Fits(Chunk(":", 'M', 'M'), Some(Chunk(":", 'S', 'S')))
    ensures Fits(Chunk(":", 'M', 'M'), Some(Chunk(":", 's', 's')))
    ensures Fits(Chunk(":", 'S', 'S'), Some(Chunk("", 'z', 'z')))
    ensures Fits(Chunk(":", 's', 's'), Some(Chunk("", 'z', 'z')))
    ensures Fits(Chunk(":", 'S', 'S'), None) && Fits(Chunk("", 'z', 'z'), None)
  {
  }

  lemma RfcFits(weekday: char, day: char, separator: char, year: char)
    requires IsWeekday(weekday) && (day == 'd' || day == 'e') && (separator == ' ' || separator == '-')
    requires year == 'Y' || year == 'y'
    ensures var chs := RfcDate(weekday, day, separator, year);
            forall i :: 0 <= i < 8 ==> Fits(chs[i], NextOf(chs, i))
  {
    hide Fits;
    var chs := RfcDate(weekday, day, separator, year);
    RfcDayFits(weekday, day, separator);
    RfcMonthFits(separator, year);
    RfcTimeFits();
    assert Fits(chs[0], Some(chs[1])) && Fits(chs[1], Some(chs[2])) && Fits(chs[2], Some(chs[3]))
           && Fits(chs[3], Some(chs[4]));
    assert Fits(chs[4], Some(chs[5])) && Fits(chs[5], Some(chs[6])) && Fits(chs[6], Some(chs[7])) && Fits(chs[7], None);
  }

  lemma RfcDayFits(weekday: char, day: char, separator: char)
    requires IsWeekday(weekday) && (day == 'd' || day == 'e') && (separator == ' ' || separator == '-')
    ensures Fits(Chunk("", weekday, weekday), Some(Chunk(", ", day, 'e')))
    ensures Fits(Chunk(", ", day, 'e'), Some(Chunk([separator], 'b', 'b')))
  {
  }

  lemma RfcMonthFits(separator: char, year: char)
    requires (separator == ' ' || separator == '-') && (year == 'Y' || year == 'y')
    ensures Fits(Chunk([separator], 'b', 'b'), Some(Chunk([separator], year, 'r')))
    ensures Fits(Chunk([separator], year, 'r'), Some(Chunk(" ", 'H', 'H')))
  {
  }

  lemma RfcTimeFits()
    ensures Fits(Chunk(" ", 'H', 'H'), Some(Chunk(":", 'M', 'M')))
            && Fits(Chunk(":", 'M', 'M'), Some(Chunk(":", 'S', 'S')))
    ensures Fits(Chunk(":", 'S', 'S'), Some(Chunk(" ", 'Z', 'Z'))) && Fits(Chunk(" ", 'Z', 'Z'), None)
  {
  }

  lemma AsctimeFits()
    ensures forall i :: 0 <= i < 7 ==> Fits(Chunks(Asctime)[i], NextOf(Chunks(Asctime), i))
  {
  }

  /** The fields of the formats, in order. */
  function Fields(f: Standard): seq<int> {
    if f.Iso? || f.IsoFrac? then [3, 1, 2, 4, 5, 6, 0]
    else if f.Sortable? then [3, 1, 2, 4, 5, 6]
    else if f.Asctime? then [0, 1, 2, 4, 5, 6, 3]
    else [0, 2, 1, 3, 4, 5, 6, 0]
  }

  lemma FieldsOfChunks(f: Standard)
    ensures |Chunks(f)| == |Fields(f)| && forall i :: 0 <= i < |Fields(f)| ==>
              FieldOf(Chunks(f)[i].read) == Fields(f)[i]
  {
    if IsShort(f) {
      FieldsOfRfc('w', if f.Http? then 'd' else 'e', ' ', if f.Rfc822? then 'y' else 'Y');
    } else if IsLong(f) {
      FieldsOfRfc('W', 'e', if f.Rfc850? then '-' else ' ', 'y');
    }
    hide RfcDate;
  }

  lemma FieldsOfRfc(weekday: char, day: char, separator: char, year: char)
    requires IsWeekday(weekday)
    ensures var chs := RfcDate(weekday, day, separator, year);
            forall i :: 0 <= i < 8 ==> FieldOf(chs[i].read) == [0, 2, 1, 3, 4, 5, 6, 0][i]
  {
  }

  lemma FieldsDiffer(f: Standard)
    ensures forall i, j :: 0 <= i < j < |Fields(f)| ==> Fields(f)[i] == 0 || Fields(f)[i] != Fields(f)[j]
  {
  }

  lemma ChunksAreWellFormed(f: Standard)
    ensures WellFormed(Chunks(f))
  {
    FieldsOfChunks(f);
    FieldsDiffer(f);
    hide Fits, FieldOf, Fields;
    if f.Asctime? {
      AsctimeFits();
    } else if f.Iso? || f.IsoFrac? || f.Sortable? {
      IsoFits(f);
    } else {
      RfcFits(if IsShort(f) then 'w' else 'W', if f.Http? then 'd' else 'e', if f.Rfc850? then '-' else ' ',
              if f.Rfc1123? || f.Http? then 'Y' else 'y');
    }
  }

  // ---------------------------------------------------------------- what they tell

  predicate HasZone(f: Standard) { f != Asctime && f != Sortable }

  lemma ReadsFields(f: Standard)
    ensures forall field :: 1 <= field <= 6 ==> Reads(Chunks(f), field)
    ensures ReadsAs(Chunks(f), 's') <==> f == IsoFrac
    ensures ReadsAs(Chunks(f), 'z') || ReadsAs(Chunks(f), 'Z') <==> HasZone(f)
  {
    FieldsOfChunks(f);
    forall field | 1 <= field <= 6 ensures Reads(Chunks(f), field) {
      FieldAmong(f, field);
    }
    ReadChars(f);
  }

  lemma FieldAmong(f: Standard, field: int)
    requires 1 <= field <= 6
    ensures exists i :: 0 <= i < |Fields(f)| && Fields(f)[i] == field
  {
    var i := if f.Iso? || f.IsoFrac? || f.Sortable? then
               (if field == 3 then 0 else if field < 3 then field else field - 1)
             else if f.Asctime? then (if field == 3 then 6 else if field < 3 then field else field - 1)
             else if field == 1 then 2 else if field == 2 then 1 else field;
    assert Fields(f)[i] == field;
  }

  lemma ReadChars(f: Standard)
    ensures ReadsAs(Chunks(f), 's') <==> f == IsoFrac
    ensures ReadsAs(Chunks(f), 'z') || ReadsAs(Chunks(f), 'Z') <==> HasZone(f)
  {
    var chs := Chunks(f);
    if f == IsoFrac {
      assert chs[5].read == 's';
    }
    if HasZone(f) {
      assert chs[|chs| - 1].read == 'z' || chs[|chs| - 1].read == 'Z';
    }
  }

  /** The year that is read. */
  function YearRead(f: Standard, year: int): int {
    if f.Rfc822? || IsLong(f) then FullYear(year % 100)
    else if IsShort(f) && year < 1000 then FullYear(year)
    else year
  }

  /** The format carries the moment: all years, or those that two digits stand for, or those of four
      digits, and no fraction of a second where it has none. */
  predicate Carries(f: Standard, x: Moment) {
    && (if f.Rfc822? || IsLong(f) then 1969 <= x.date.year < 2069 else IsShort(f) ==> x.date.year >= 1000)
    && (f == IsoFrac || (x.clock.millisecond == 0 && x.clock.microsecond == 0))
  }

  lemma YearsRead(f: Standard, year: int)
    requires 0 <= year <= 9999
    ensures forall i :: 0 <= i < |Chunks(f)| && FieldOf(Chunks(f)[i].read) == 3 ==>
              YearLearned(Chunks(f)[i], year) == YearRead(f, year)
  {
    hide FieldOf, FullYear;
    OnlyYears(f);
  }

  lemma OnlyYears(f: Standard)
    ensures forall i :: 0 <= i < |Chunks(f)| && FieldOf(Chunks(f)[i].read) == 3 ==>
              i == (if f.Asctime? then 6 else if IsShort(f) || IsLong(f) then 3 else 0)
  {
    FieldsOfChunks(f);
    hide FieldOf;
    FieldsDiffer(f);
  }

  /** What a printed text is read as. */
  function ReadBack(f: Standard, x: Moment): Reading {
    var frac := f == IsoFrac;
    Reading("", YearRead(f, x.date.year), x.date.month, x.date.day, x.clock.hour, x.clock.minute, x.clock.second,
            if frac then x.clock.millisecond else 0, if frac then x.clock.microsecond else 0,
            if HasZone(f) then ZoneRead(x.zone) else 0)
  }

  lemma ParsesBack(f: Standard, x: Moment)
    requires Printable(x)
    ensures ParseAs(ReadString(f), Format(FormatString(f), x)) == Checked(ReadBack(f, x))
  {
    hide Format, Read, Chunks, FormatString, ReadString, WellFormed, LearnedAll, Reads, ReadsAs, IsZone, ZoneRead,
      DaysOfMonth, Checked, YearRead, YearLearned;
    var chs := Chunks(f);
    var text := Format(FormatString(f), x);
    ChunksPrint(f);
    ChunksRead(f, Start(text));
    ChunksAreWellFormed(f);
    FormatReadsBack(chs, x);
    ReadsFields(f);
    YearsRead(f, x.date.year);
    DateLearned(chs, Start(""), x, YearRead(f, x.date.year));
    TimeLearned(chs, Start(""), x);
  }

  // ---------------------------------------------------------------- the format is detected

  lemma TwoAreDigits(n: int, c: char)
    requires 0 <= n < 100 && (c == ',' || c == ' ' || c == '.')
    ensures c !in Two(n)
  {
  }

  lemma ThreeAreDigits(n: int, c: char)
    requires 0 <= n < 1000 && (c == ',' || c == ' ' || c == '.')
    ensures c !in Three(n)
  {
  }

  predicate IsPlain(print_: char, c: char) {
    || print_ == 'Y' || print_ == 'm' || print_ == 'd' || print_ == 'H' || print_ == 'M' || print_ == 'S'
        || print_ == 'z'
    || (print_ == 's' && c != '.')
  }

  /** The fields of ISO dates have no commas and blanks, and a full stop only before a fraction. */
  lemma PieceWithout(print_: char, c: char, x: Moment)
    requires Printable(x) && IsPlain(print_, c) && (c == ',' || c == ' ' || c == '.')
    ensures c !in Piece(print_, x)
  {
    var d, t := x.date, x.clock;
    if print_ == 'z' {
      ZoneWithout(x, c);
    } else if print_ == 's' {
      SecondsWithout(x, c);
    } else {
      hide Padded, Two, DayNumber, DayOfWeek, MonthName, WeekdayName, Number, IsLeapYear, IsZone;
      var n := if print_ == 'm' then d.month else if print_ == 'd' then d.day else if print_ == 'H' then t.hour
               else if print_ == 'M' then t.minute else t.second;
      NumberOfTwo(n);
      TwoAreDigits(n, c);
      NumberOfFour(d.year);
      TwoAreDigits(d.year / 100, c);
      TwoAreDigits(d.year % 100, c);
    }
  }

  lemma SecondsWithout(x: Moment, c: char)
    requires Printable(x) && (c == ',' || c == ' ')
    ensures c !in Piece('s', x)
  {
    hide Piece, Two, Three;
    SecondsPiece(x);
    TwoAreDigits(x.clock.second, c);
    ThreeAreDigits(x.clock.millisecond, c);
    ThreeAreDigits(x.clock.microsecond, c);
  }

  lemma ZoneWithout(x: Moment, c: char)
    requires Printable(x) && (c == ',' || c == ' ' || c == '.')
    ensures c !in Piece('z', x)
  {
    hide Padded, Two, DayNumber, DayOfWeek, MonthName, WeekdayName, Number, IsLeapYear;
    if x.zone != UTC {
      ZoneSigned(x.zone, ":");
      var seconds := if x.zone >= 0 then x.zone else -x.zone;
      TwoAreDigits(seconds / 3600, c);
      TwoAreDigits(seconds % 3600 / 60, c);
      assert ZoneText(x.zone, "Z", ":") == ZoneText(x.zone, "", ":");
    }
  }

  lemma {:induction false} PiecesWithout(chs: seq<Chunk>, c: char, x: Moment)
    requires Printable(x) && (c == ',' || c == ' ' || c == '.')
    requires forall i :: 0 <= i < |chs| ==> c !in chs[i].lit && IsPlain(chs[i].print_, c)
    ensures c !in Pieces(chs, x)
  {
    hide Piece, IsMoment, IsZone, IsPlain;
    if chs != [] {
      PieceWithout(chs[0].print_, c, x);
      assert forall i :: 0 < i < |chs| ==> chs[i] == chs[1..][i - 1];
      PiecesWithout(chs[1..], c, x);
    }
  }

  /** What stands in a chunk stands in the text. */
  lemma {:induction false} PiecesWith(chs: seq<Chunk>, i: nat, c: char, x: Moment)
    requires IsMoment(x) && i < |chs| && (c in chs[i].lit || c in Piece(chs[i].print_, x))
    ensures c in Pieces(chs, x)
  {
    hide Piece, IsMoment;
    if i > 0 {
      PiecesWith(chs[1..], i - 1, c, x);
    }
  }

  lemma PieceIsLong(print_: char, x: Moment)
    requires Printable(x) && IsPlain(print_, ',') && print_ != 'z'
    ensures |Piece(print_, x)| >= 2
  {
    if print_ == 's' {
      hide Piece, Two, Three;
      SecondsPiece(x);
      assert |Two(x.clock.second)| == 2 by { TwoDigits(x.clock.second); TwoLong(x.clock.second); }
    } else {
      hide Padded, DayNumber, DayOfWeek, MonthName, WeekdayName, Number, IsLeapYear, IsZone;
      var d, t := x.date, x.clock;
      var n := if print_ == 'm' then d.month else if print_ == 'd' then d.day else if print_ == 'H' then t.hour
               else if print_ == 'M' then t.minute else t.second;
      NumberOfTwo(n);
      NumberOfFour(d.year);
    }
  }

  lemma TwoLong(n: int)
    requires 0 <= n < 100
    ensures |Two(n)| == 2
  {
  }

  lemma {:induction false} PiecesAreLong(chs: seq<Chunk>, k: nat, x: Moment)
    requires Printable(x) && k <= |chs| && forall i :: 0 <= i < k ==>
               IsPlain(chs[i].print_, ',') && chs[i].print_ != 'z'
    ensures |Pieces(chs, x)| >= 2 * k
  {
    hide Piece, IsMoment, IsZone, IsPlain;
    if k > 0 {
      PieceIsLong(chs[0].print_, x);
      assert forall i :: 0 < i < |chs| ==> chs[i] == chs[1..][i - 1];
      PiecesAreLong(chs[1..], k - 1, x);
    }
  }

  /** The text of a date that begins with a weekday goes on with a comma or a blank. */
  lemma WeekdayText(chs: seq<Chunk>, x: Moment)
    requires IsMoment(x) && |chs| > 1 && chs[0] == Chunk("", 'w', 'w') && chs[1].lit != ""
    ensures |Pieces(chs, x)| > 3 && Pieces(chs, x)[3] == chs[1].lit[0]
  {
    hide WeekdayName, DayOfWeek, DayNumber, MonthName, Padded, Number;
    var day := DayOfWeek(DayNumber(x.date));
    WeekdayWord(day);
    var w := WeekdayName(day)[..3];
    hide IsMoment;
    assert Pieces(chs, x) == w + Pieces(chs[1..], x);
    assert Pieces(chs[1..], x)[0] == chs[1].lit[0];
  }

  lemma LongWeekdayText(chs: seq<Chunk>, x: Moment)
    requires IsMoment(x) && |chs| > 1 && chs[0] == Chunk("", 'W', 'W') && chs[1].lit != "" && chs[1].lit[0] == ','
    ensures var s := Pieces(chs, x);
            |s| > 3 && IsLetter(s[3]) && exists i :: 0 <= i < |s| && i < 10 && s[i] == ','
  {
    hide WeekdayName, DayOfWeek, DayNumber, MonthName, Padded, Number;
    var day := DayOfWeek(DayNumber(x.date));
    WeekdayWord(day);
    WeekdayLength(day);
    var w := WeekdayName(day);
    hide IsMoment;
    assert Pieces(chs, x) == w + Pieces(chs[1..], x);
    assert Pieces(chs[1..], x)[0] == ',';
    assert Pieces(chs, x)[|w|] == ',';
  }

  lemma WeekdayLength(day: int)
    ensures |WeekdayName(day)| <= 9
  {
  }

  lemma YearText(chs: seq<Chunk>, x: Moment)
    requires Printable(x) && chs != [] && chs[0] == Chunk("", 'Y', 'Y')
    ensures |Pieces(chs, x)| >= 4 && IsDigit(Pieces(chs, x)[0]) && IsDigit(Pieces(chs, x)[3])
  {
    hide WeekdayName, DayOfWeek, DayNumber, MonthName, Padded, Number, Two;
    var n := x.date.year;
    NumberOfFour(n);
    TwoDigits(n / 100);
    TwoDigits(n % 100);
    TwoLong(n / 100);
    TwoLong(n % 100);
    hide IsMoment, IsZone;
    assert Pieces(chs, x) == Two(n / 100) + Two(n % 100) + Pieces(chs[1..], x);
  }

  lemma IsoText(f: Standard, x: Moment)
    requires Printable(x) && (f.Iso? || f.IsoFrac? || f.Sortable?)
    ensures var s := Pieces(Chunks(f), x);
            && |s| >= 4 && IsDigit(s[0]) && IsDigit(s[3]) && ',' !in s && |s| > 10
            && (' ' in s <==> f.Sortable?) && ('.' in s <==> f.IsoFrac?)
  {
    hide Piece, Pieces, IsMoment, IsZone;
    var chs := Chunks(f);
    YearText(chs, x);
    PiecesAreLong(chs, 6, x);
    PiecesWithout(chs, ',', x);
    if f.Sortable? {
      PiecesWith(chs, 3, ' ', x);
      PiecesWithout(chs, '.', x);
    } else {
      PiecesWithout(chs, ' ', x);
      if f.IsoFrac? {
        FractionHasStop(x);
        PiecesWith(chs, 5, '.', x);
      } else {
        PiecesWithout(chs, '.', x);
      }
    }
  }

  lemma FractionHasStop(x: Moment)
    requires IsMoment(x)
    ensures '.' in Piece('s', x)
  {
    hide Two, Three, Piece;
    SecondsPiece(x);
  }

  lemma PrintsPieces(f: Standard, x: Moment)
    requires IsMoment(x)
    ensures Format(FormatString(f), x) == Pieces(Chunks(f), x)
  {
    hide Format, Pieces, IsMoment, Chunks, FormatString;
    var chs := Chunks(f);
    ChunksAreWellFormed(f);
    forall i | 0 <= i < |chs| ensures NoPercent(chs[i].lit) { assert Fits(chs[i], NextOf(chs, i)); }
    ChunksPrint(f);
    FormatPieces(chs, x);
  }

  /** The parser finds out which format a text is in. */
  lemma Detected(f: Standard, x: Moment)
    requires Printable(x)
    ensures TryParse(Format(FormatString(f), x)) == ParseAs(ReadString(f), Format(FormatString(f), x))
  {
    hide ParseAs, Format, Pieces, IsMoment, IsZone;
    PrintsPieces(f, x);
    if f.Iso? || f.IsoFrac? || f.Sortable? {
      IsoText(f, x);
    } else if IsLong(f) {
      LongWeekdayText(Chunks(f), x);
    } else {
      WeekdayText(Chunks(f), x);
    }
    hide Chunks;
  }

  lemma YearKept(f: Standard, year: int)
    requires 0 <= year <= 9999
    ensures YearRead(f, year) == year <==>
              if f.Rfc822? || IsLong(f) then 1969 <= year < 2069 else IsShort(f) ==> year >= 1000
  {
  }

  /** A date and time with any zone offset of whole minutes under a hundred hours, printed in a
      standard format, is read back with the same fields and offset if and only if the format
      carries it. */
  lemma DateTextRoundTrip(f: Standard, x: Moment)
    requires Printable(x)
    ensures Carries(f, x) <==>
            TryParse(Format(FormatString(f), x))
                == Some(Parsed(x.date, x.clock, if HasZone(f) then ZoneRead(x.zone) else 0))
  {
    hide TryParse, ParseAs, Format, YearRead;
    Detected(f, x);
    ParsesBack(f, x);
    YearKept(f, x.date.year);
  }
}
