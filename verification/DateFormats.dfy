/** The date formatter: what each format specifier prints. */
module DateFormats {
  import opened Calendar
  import opened DateTimes

  // ---------------------------------------------------------------- characters (C locale)

  predicate IsDigit(c: char) { '0' <= c <= '9' }

  predicate IsLetter(c: char) { 'a' <= c <= 'z' || 'A' <= c <= 'Z' }

  predicate IsBlank(c: char) { c == ' ' || '\t' <= c <= '\r' }

  predicate IsMark(c: char) { '!' <= c <= '~' && !IsDigit(c) && !IsLetter(c) }

  function ToUpper(c: char): char { if 'a' <= c <= 'z' then (c as int - 32) as char else c }

  function ToLower(c: char): char { if 'A' <= c <= 'Z' then (c as int + 32) as char else c }

  // ---------------------------------------------------------------- names

  function MonthName(month: int): string {
    if month == 1 then "January" else if month == 2 then "February" else if month == 3 then "March"
    else if month == 4 then "April" else if month == 5 then "May" else if month == 6 then "June"
    else if month == 7 then "July" else if month == 8 then "August" else if month == 9 then "September"
    else if month == 10 then "October" else if month == 11 then "November" else "December"
  }

  function WeekdayName(day: int): string {
    if day == 0 then "Sunday" else if day == 1 then "Monday" else if day == 2 then "Tuesday"
    else if day == 3 then "Wednesday" else if day == 4 then "Thursday" else if day == 5 then "Friday" else "Saturday"
  }

  // ---------------------------------------------------------------- numbers

  function Digit(n: int): char
    requires 0 <= n <= 9
  {
    ('0' as int + n) as char
  }

  /** numeric::format */
  function Number(n: nat): string { if n < 10 then [Digit(n)] else Number(n / 10) + [Digit(n % 10)] }

  function Repeat(c: char, n: int): string { if n <= 0 then "" else [c] + Repeat(c, n - 1) }

  /** numeric::format and format0 with a width */
  function Padded(n: nat, pad: char, width: nat): string { Repeat(pad, width - |Number(n)|) + Number(n) }

  // ---------------------------------------------------------------- specifiers

  /** The zone offset that stands for UTC. */
  const UTC := 0xFFFF

  /** What is to be printed: the fields and the zone offset in seconds. */
  datatype Moment = Moment(date: Date, clock: Clock, zone: int)

  predicate IsMoment(x: Moment) { IsValid(x.date) && 0 <= x.date.year <= 9999 && IsClock(x.clock) }

  function HourAmPm(hour: int): int { if hour < 1 then 12 else if hour > 12 then hour - 12 else hour }

  /** tzdISO and tzdRFC; `colon` separates hours and minutes */
  function ZoneText(zone: int, utc: string, colon: string): string {
    if zone == UTC then utc
    else
      var (sign, seconds) := if zone >= 0 then ("+", zone) else ("-", -zone);
      sign + Padded(seconds / 3600, '0', 2) + colon + Padded(seconds % 3600 / 60, '0', 2)
  }

  /** What a specifier prints; any other character stands for itself. */
  function Piece(c: char, x: Moment): string
    requires IsMoment(x)
  {
    var (d, t) := (x.date, x.clock);
    if c == 'w' then WeekdayName(DayOfWeek(DayNumber(d)))[..3]
    else if c == 'W' then WeekdayName(DayOfWeek(DayNumber(d)))
    else if c == 'b' then MonthName(d.month)[..3]
    else if c == 'B' then MonthName(d.month)
    else if c == 'd' then Padded(d.day, '0', 2)
    else if c == 'e' then Number(d.day)
    else if c == 'f' then Padded(d.day, ' ', 2)
    else if c == 'm' then Padded(d.month, '0', 2)
    else if c == 'n' then Number(d.month)
    else if c == 'o' then Padded(d.month, ' ', 2)
    else if c == 'y' then Padded(d.year % 100, '0', 2)
    else if c == 'Y' then Padded(d.year, '0', 4)
    else if c == 'H' then Padded(t.hour, '0', 2)
    else if c == 'h' then Padded(HourAmPm(t.hour), '0', 2)
    else if c == 'a' then if t.hour < 12 then "am" else "pm"
    else if c == 'A' then if t.hour < 12 then "AM" else "PM"
    else if c == 'M' then Padded(t.minute, '0', 2)
    else if c == 'S' then Padded(t.second, '0', 2)
    else if c == 's' then Padded(t.second, '0', 2) + "." + Padded(t.millisecond * 1000 + t.microsecond, '0', 6)
    else if c == 'i' then Padded(t.millisecond, '0', 3)
    else if c == 'c' then Number(t.millisecond / 100)
    else if c == 'F' then Padded(t.millisecond * 1000 + t.microsecond, '0', 6)
    else if c == 'z' then ZoneText(x.zone, "Z", ":")
    else if c == 'Z' then ZoneText(x.zone, "GMT", "")
    else [c]
  }

  /** DateTimeFormatter::append, as a function of the format. */
  function Format(fmt: string, x: Moment): string
    requires IsMoment(x)
  {
    if fmt == "" then ""
    else if fmt[0] != '%' then [fmt[0]] + Format(fmt[1..], x)
    else if |fmt| == 1 then ""
    else Piece(fmt[1], x) + Format(fmt[2..], x)
  }

  /** DateTimeFormatter::append */
  method Append(str: string, fmt: string, x: Moment) returns (r: string)
    requires IsMoment(x)
    ensures r == str + Format(fmt, x)
  {
    hide Piece, IsMoment;
    r := str;
    var it := 0;
    while it < |fmt|
      invariant it <= |fmt|
      invariant r + Format(fmt[it..], x) == str + Format(fmt, x)
    {
      if fmt[it] == '%' {
        it := it + 1;
        if it < |fmt| {
          assert fmt[it - 1..][2..] == fmt[it + 1..];
          r := r + Piece(fmt[it], x);
          it := it + 1;
        }
      } else {
        r := r + [fmt[it]];
        it := it + 1;
      }
    }
  }
}
