/** The date parser, and its round trip with the formatter. */
module DateText {
  import opened Options
  import opened Calendar
  import opened DateTimes
  import opened DateFormats

  // ---------------------------------------------------------------- reading

  /** The text not read yet, and the fields read so far. */
  datatype Reading = Reading(
    rest: string, year: int, month: int, day: int, hour: int, minute: int, second: int, millis: int, micros: int,
    tzd: int)

  function Start(text: string): Reading { Reading(text, 0, 0, 0, 0, 0, 0, 0, 0, 0) }

  function DropDigits(s: string): string { if s != "" && IsDigit(s[0]) then DropDigits(s[1..]) else s }

  /** SKIP_JUNK */
  function DropJunk(s: string): string { if s != "" && !IsDigit(s[0]) then DropJunk(s[1..]) else s }

  function DropBlanks(s: string): string { if s != "" && IsBlank(s[0]) then DropBlanks(s[1..]) else s }

  function DropBlanksAndMarks(s: string): string {
    if s != "" && (IsBlank(s[0]) || IsMark(s[0])) then DropBlanksAndMarks(s[1..]) else s
  }

  function DropLetters(s: string): string { if s != "" && IsLetter(s[0]) then DropLetters(s[1..]) else s }

  /** The letters in front of a text. */
  function Letters(s: string): string { if s != "" && IsLetter(s[0]) then [s[0]] + Letters(s[1..]) else "" }

  function DigitValue(c: char): int { c as int - '0' as int }

  /** PARSE_NUMBER_N: at most n digits. */
  function TakeNumber(value: int, s: string, n: nat): (int, string)
    decreases n
  {
    if n == 0 || s == "" || !IsDigit(s[0]) then (value, s)
    else TakeNumber(value * 10 + DigitValue(s[0]), s[1..], n - 1)
  }

  /** PARSE_NUMBER */
  function TakeAll(value: int, s: string): (int, string)
    decreases |s|
  {
    if s == "" || !IsDigit(s[0]) then (value, s) else TakeAll(value * 10 + DigitValue(s[0]), s[1..])
  }

  /** PARSE_FRACTIONAL_N: n digits, the missing ones are 0. */
  function TakeFraction(value: int, s: string, n: nat): (int, string)
    decreases n
  {
    if n == 0 then (value, s)
    else if s == "" || !IsDigit(s[0]) then TakeFraction(value * 10, s, n - 1)
    else TakeFraction(value * 10 + DigitValue(s[0]), s[1..], n - 1)
  }

  // ---------------------------------------------------------------- months, zones, halves of a day

  function LowerAll(s: string): string { if s == "" then "" else [ToLower(s[0])] + LowerAll(s[1..]) }

  function UpperAll(s: string): string { if s == "" then "" else [ToUpper(s[0])] + UpperAll(s[1..]) }

  /** The month whose name begins like this. */
  function MonthOf(name: string, from: int): Option<int>
    requires 1 <= from <= 13
    decreases 13 - from
  {
    if from == 13 then None else if name <= MonthName(from) then Some(from) else MonthOf(name, from + 1)
  }

  /** parseMonth */
  function TakeMonth(s: string): Option<(int, string)> {
    var t := DropBlanksAndMarks(s);
    var name := Letters(t);
    if |name| < 3 then None
    else
      match MonthOf([ToUpper(name[0])] + LowerAll(name[1..]), 1)
      case None => None
      case Some(m) => Some((m, DropLetters(t)))
  }

  /** parseAMPM */
  function TakeAmPm(s: string, hour: int): Option<(int, string)> {
    var t := DropBlanksAndMarks(s);
    var half := UpperAll(Letters(t));
    if half == "AM" then Some((if hour == 12 then 0 else hour, DropLetters(t)))
    else if half == "PM" then Some((if hour < 12 then hour + 12 else hour, DropLetters(t)))
    else None
  }

  const ZONES: seq<(string, int)> := [
    ("Z", 0), ("UT", 0), ("GMT", 0), ("BST", 3600), ("IST", 3600), ("WET", 0), ("WEST", 3600), ("CET", 3600),
    ("CEST", 7200), ("EET", 7200), ("EEST", 10800), ("MSK", 10800), ("MSD", 14400), ("NST", -12600), ("NDT", -9000),
    ("AST", -14400), ("ADT", -10800), ("EST", -18000), ("EDT", -14400), ("CST", -21600), ("CDT", -18000),
    ("MST", -25200), ("MDT", -21600), ("PST", -28800), ("PDT", -25200), ("AKST", -32400), ("AKDT", -28800),
    ("HST", -36000), ("AEST", 36000), ("AEDT", 39600), ("ACST", 34200), ("ACDT", 37800), ("AWST", 28800),
    ("AWDT", 32400)]

  function ZoneOf(designator: string, zones: seq<(string, int)>): int {
    if zones == [] then 0 else if zones[0].0 == designator then zones[0].1 else ZoneOf(designator, zones[1..])
  }

  /** At most n letters. */
  function TakeLetters(s: string, n: nat): string {
    if n == 0 || s == "" || !IsLetter(s[0]) then "" else [s[0]] + TakeLetters(s[1..], n - 1)
  }

  lemma {:induction false} TakeLettersPrefix(s: string, n: nat)
    ensures |TakeLetters(s, n)| <= |s|
  {
    if n > 0 && s != "" && IsLetter(s[0]) {
      TakeLettersPrefix(s[1..], n - 1);
    }
  }

  /** The numeric part of a zone offset. */
  function TakeOffset(s: string): (int, string) {
    if s != "" && (s[0] == '+' || s[0] == '-') then
      var h := TakeNumber(0, s[1..], 2);
      var t := if h.1 != "" && h.1[0] == ':' then h.1[1..] else h.1;
      var m := TakeNumber(0, t, 2);
      (if s[0] == '+' then h.0 * 3600 + m.0 * 60 else -(h.0 * 3600 + m.0 * 60), m.1)
    else (0, s)
  }

  /** parseTZD */
  function TakeZone(s: string): (int, string) {
    var t := DropBlanks(s);
    var designator := TakeLetters(t, 4);
    TakeLettersPrefix(t, 4);
    var o := TakeOffset(t[|designator|..]);
    (ZoneOf(designator, ZONES) + o.0, o.1)
  }

  // ---------------------------------------------------------------- specifiers

  /** What a specifier reads; None is an exception. */
  function ReadSpec(c: char, r: Reading): Option<Reading> {
    if c == 'w' || c == 'W' then Some(r.(rest := DropLetters(DropBlanks(r.rest))))
    else if c == 'b' || c == 'B' then
      match TakeMonth(r.rest) { case None => None case Some(m) => Some(r.(month := m.0, rest := m.1)) }
    else if c == 'a' || c == 'A' then
      match TakeAmPm(r.rest, r.hour) { case None => None case Some(m) => Some(r.(hour := m.0, rest := m.1)) }
    else if c == 'z' || c == 'Z' then var z := TakeZone(r.rest); Some(r.(tzd := z.0, rest := z.1))
    else Some(ReadNumber(c, r))
  }

  /** The specifiers that read numbers. */
  function ReadNumber(c: char, r: Reading): Reading {
    var s := DropJunk(r.rest);
    if c == 'd' || c == 'e' || c == 'f' then var n := TakeNumber(r.day, s, 2); r.(day := n.0, rest := n.1)
    else if c == 'm' || c == 'n' || c == 'o' then var n := TakeNumber(r.month, s, 2); r.(month := n.0, rest := n.1)
    else if c == 'y' then var n := TakeNumber(r.year, s, 2); r.(year := FullYear(n.0), rest := n.1)
    else if c == 'Y' then var n := TakeNumber(r.year, s, 4); r.(year := n.0, rest := n.1)
    else if c == 'r' then
      var n := TakeAll(r.year, s);
      r.(year := if n.0 < 1000 then FullYear(n.0) else n.0, rest := n.1)
    else if c == 'H' || c == 'h' then var n := TakeNumber(r.hour, s, 2); r.(hour := n.0, rest := n.1)
    else if c == 'M' then var n := TakeNumber(r.minute, s, 2); r.(minute := n.0, rest := n.1)
    else if c == 'S' then var n := TakeNumber(r.second, s, 2); r.(second := n.0, rest := n.1)
    else if c == 's' then ReadSeconds(r.(rest := s))
    else if c == 'i' then var n := TakeNumber(r.millis, s, 3); r.(millis := n.0, rest := n.1)
    else if c == 'c' then var n := TakeNumber(r.millis, s, 1); r.(millis := n.0 * 100, rest := n.1)
    else if c == 'F' then ReadFraction(r.(rest := s))
    else r
  }

  function FullYear(year: int): int { if year >= 69 then year + 1900 else year + 2000 }

  function ReadFraction(r: Reading): Reading {
    var m := TakeFraction(r.millis, r.rest, 3);
    var u := TakeFraction(r.micros, m.1, 3);
    r.(millis := m.0, micros := u.0, rest := DropDigits(u.1))
  }

  function ReadSeconds(r: Reading): Reading {
    var n := TakeNumber(r.second, r.rest, 2);
    if n.1 != "" && (n.1[0] == '.' || n.1[0] == ',') then ReadFraction(r.(second := n.0, rest := n.1[1..]))
    else r.(second := n.0, rest := n.1)
  }

  /** The loop of DateTimeParser::parse: characters of the format that are no specifiers
      read nothing. */
  function Read(fmt: string, r: Reading): Option<Reading> {
    if fmt == "" || r.rest == "" then Some(r)
    else if fmt[0] != '%' then Read(fmt[1..], r)
    else if |fmt| == 1 then Some(r)
    else
      match ReadSpec(fmt[1], r)
      case None => None
      case Some(q) => Read(fmt[2..], q)
  }

  datatype Parsed = Parsed(date: Date, clock: Clock, tzd: int)

  /** The fields read, if they are a date and a time. */
  function Checked(r: Reading): Option<Parsed> {
    var d := Date(r.year, if r.month == 0 then 1 else r.month, if r.day == 0 then 1 else r.day);
    var t := Clock(r.hour, r.minute, r.second, r.millis, r.micros);
    if 0 <= d.year <= 9999 && IsValid(d) && IsClock(t) then Some(Parsed(d, t, r.tzd)) else None
  }

  /** tryParse with a format */
  function ParseAs(fmt: string, text: string): Option<Parsed> {
    match Read(fmt, Start(text))
    case None => None
    case Some(r) => Checked(r)
  }

  // ---------------------------------------------------------------- detecting the format

  const ISO8601 := "%Y-%m-%dT%H:%M:%S%z"
  const ISO8601_FRAC := "%Y-%m-%dT%H:%M:%s%z"
  const RFC822 := "%w, %e %b %y %H:%M:%S %Z"
  const RFC1123 := "%w, %e %b %Y %H:%M:%S %Z"
  const HTTP := "%w, %d %b %Y %H:%M:%S %Z"
  const RFC850 := "%W, %e-%b-%y %H:%M:%S %Z"
  const RFC1036 := "%W, %e %b %y %H:%M:%S %Z"
  const ASCTIME := "%w %b %f %H:%M:%S %Y"
  const SORTABLE := "%Y-%m-%d %H:%M:%S"

  // What the detecting parser reads names with.
  const SHORT_WEEKDAY := "%w, %e %b %r %H:%M:%S %Z"
  const LONG_WEEKDAY := "%W, %e %b %r %H:%M:%S %Z"

  /** tryParse without a format */
  function TryParse(text: string): Option<Parsed> {
    if |text| < 4 then None
    else if text[3] == ',' then ParseAs(SHORT_WEEKDAY, text)
    else if text[3] == ' ' then ParseAs(ASCTIME, text)
    else if exists i :: 0 <= i < |text| && i < 10 && text[i] == ',' then ParseAs(LONG_WEEKDAY, text)
    else if !IsDigit(text[0]) then None
    else if ' ' in text || |text| == 10 then ParseAs(SORTABLE, text)
    else if '.' in text || ',' in text then ParseAs(ISO8601_FRAC, text)
    else ParseAs(ISO8601, text)
  }

  // ---------------------------------------------------------------- formats in chunks

  /** A stretch of a format: text without '%', and the specifiers that print and read what follows. */
  datatype Chunk = Chunk(lit: string, print_: char, read: char)

  function PrintFormat(chs: seq<Chunk>): string {
    if chs == [] then "" else chs[0].lit + ['%', chs[0].print_] + PrintFormat(chs[1..])
  }

  function ReadFormat(chs: seq<Chunk>): string {
    if chs == [] then "" else chs[0].lit + ['%', chs[0].read] + ReadFormat(chs[1..])
  }

  function Pieces(chs: seq<Chunk>, x: Moment): string
    requires IsMoment(x)
  {
    if chs == [] then "" else chs[0].lit + (Piece(chs[0].print_, x) + Pieces(chs[1..], x))
  }

  predicate NoPercent(s: string) { forall i :: 0 <= i < |s| ==> s[i] != '%' }

  lemma {:induction false} FormatLit(lit: string, fmt: string, x: Moment)
    requires IsMoment(x) && NoPercent(lit)
    ensures Format(lit + fmt, x) == lit + Format(fmt, x)
  {
    hide Piece;
    if lit == "" {
      assert lit + fmt == fmt;
    } else {
      FormatLit(lit[1..], fmt, x);
      assert (lit + fmt)[1..] == lit[1..] + fmt;
    }
  }

  /** What a format in chunks prints. */
  lemma {:induction false} FormatPieces(chs: seq<Chunk>, x: Moment)
    requires IsMoment(x) && forall i :: 0 <= i < |chs| ==> NoPercent(chs[i].lit)
    ensures Format(PrintFormat(chs), x) == Pieces(chs, x)
  {
    hide Piece, IsMoment;
    if chs != [] {
      var rest := ['%', chs[0].print_] + PrintFormat(chs[1..]);
      FormatPieces(chs[1..], x);
      assert PrintFormat(chs) == chs[0].lit + rest;
      FormatLit(chs[0].lit, rest, x);
      assert rest[2..] == PrintFormat(chs[1..]);
    }
  }

  lemma {:induction false} ReadLit(lit: string, fmt: string, r: Reading)
    requires NoPercent(lit) && r.rest != ""
    ensures Read(lit + fmt, r) == Read(fmt, r)
  {
    hide ReadSpec;
    if lit == "" {
      assert lit + fmt == fmt;
    } else {
      ReadLit(lit[1..], fmt, r);
      assert (lit + fmt)[1..] == lit[1..] + fmt;
    }
  }

  /** Reading goes on chunk by chunk while there is text. */
  lemma ReadChunk(chs: seq<Chunk>, r: Reading)
    requires chs != [] && NoPercent(chs[0].lit) && r.rest != ""
    ensures Read(ReadFormat(chs), r) ==
              match ReadSpec(chs[0].read, r) { case None => None case Some(q) => Read(ReadFormat(chs[1..]), q) }
  {
    hide ReadSpec;
    var rest := ['%', chs[0].read] + ReadFormat(chs[1..]);
    assert ReadFormat(chs) == chs[0].lit + rest;
    ReadLit(chs[0].lit, rest, r);
    assert rest[2..] == ReadFormat(chs[1..]);
  }

  // ---------------------------------------------------------------- printed numbers are read back

  function Two(n: int): string
    requires 0 <= n < 100
  {
    [Digit(n / 10), Digit(n % 10)]
  }

  function Three(n: int): string
    requires 0 <= n < 1000
  {
    [Digit(n / 100)] + Two(n % 100)
  }

  lemma NumberOfTwo(n: int)
    requires 0 <= n < 100
    ensures Number(n) == if n < 10 then [Digit(n)] else Two(n)
    ensures Padded(n, '0', 2) == Two(n)
    ensures Padded(n, ' ', 2) == if n < 10 then [' ', Digit(n)] else Two(n)
  {
    hide Padded, Number, Two;
    OneOrTwo(n);
    if n < 10 {
      PaddedOne(n);
    } else {
      PaddedTwo(n, '0');
      PaddedTwo(n, ' ');
    }
  }

  lemma PaddedOne(n: int)
    requires 0 <= n < 10
    ensures Padded(n, '0', 2) == Two(n) && Padded(n, ' ', 2) == [' ', Digit(n)]
  {
    hide Digit, Repeat, Number;
    OneOrTwo(n);
    OneAndNone('0');
    OneAndNone(' ');
    ZeroDigit();
  }

  lemma PaddedTwo(n: int, pad: char)
    requires 10 <= n < 100
    ensures Padded(n, pad, 2) == Two(n)
  {
    hide Digit, Repeat, Number;
    OneOrTwo(n);
    OneAndNone(pad);
  }

  lemma OneOrTwo(n: int)
    requires 0 <= n < 100
    ensures Number(n) == if n < 10 then [Digit(n)] else Two(n)
  {
    hide Digit;
    if n >= 10 {
      assert Number(n / 10) == [Digit(n / 10)];
      assert Number(n) == [Digit(n / 10)] + [Digit(n % 10)];
    }
  }

  lemma OneAndNone(c: char)
    ensures Repeat(c, 0) == "" && Repeat(c, 1) == [c] && Repeat(c, 2) == [c, c]
  {
    assert Repeat(c, 2) == [c] + Repeat(c, 1);
  }

  lemma NumberOfThree(n: int)
    requires 0 <= n < 1000
    ensures Repeat('0', 3 - |Number(n)|) + Number(n) == Three(n)
  {
    hide Digit, Repeat, Number, Three;
    OneAndNone('0');
    if n >= 100 {
      NumberTwoMore(n);
      assert |Three(n)| == 3 by { ThreeLength(n); }
    } else {
      OneOrTwo(n);
      ThreeOfTwo(n);
    }
  }

  lemma NumberTwoMore(n: int)
    requires 100 <= n < 1000
    ensures Number(n) == Three(n)
  {
    hide Digit;
    OneOrTwo(n / 10);
    assert Number(n) == Two(n / 10) + [Digit(n % 10)];
  }

  lemma ThreeLength(n: int)
    requires 0 <= n < 1000
    ensures |Three(n)| == 3
  {
  }

  lemma ThreeOfTwo(n: int)
    requires 0 <= n < 100
    ensures Three(n) == if n < 10 then ['0', '0', Digit(n)] else ['0'] + Two(n)
  {
    hide Digit;
    ZeroDigit();
  }

  lemma NumberOfFour(n: int)
    requires 0 <= n < 10000
    ensures Padded(n, '0', 4) == Two(n / 100) + Two(n % 100)
  {
    hide Digit;
    if n < 1000 {
      NumberOfThree(n);
      AtMostThree(n);
      RepeatMore('0', 1, 3 - |Number(n)|);
      OneAndNone('0');
      ZeroDigit();
      hide Repeat, Number;
      assert Padded(n, '0', 4) == "0" + Three(n);
    } else {
      var m := n / 10;
      OneOrTwo(m / 10);
      assert Number(m) == Two(m / 10) + [Digit(m % 10)];
      assert Number(n) == Number(m) + [Digit(n % 10)];
      hide Number, Repeat;
      assert n / 100 == m / 10 && n % 100 / 10 == m % 10 && n % 100 % 10 == n % 10;
      assert Number(n) == Two(n / 100) + Two(n % 100);
      NoRepeat('0', 4 - |Number(n)|);
    }
  }

  lemma NoRepeat(c: char, n: int)
    requires n <= 0
    ensures Repeat(c, n) == ""
  {
  }

  lemma NumberOfSix(n: int)
    requires 0 <= n < 1000000
    ensures Padded(n, '0', 6) == Three(n / 1000) + Three(n % 1000)
  {
    SixDigits(n);
    NumberOfThree(n / 1000);
  }

  lemma SixDigits(n: int)
    requires 0 <= n < 1000000
    ensures |Number(n)| <= 6
    ensures Padded(n, '0', 6) == Repeat('0', 3 - |Number(n / 1000)|) + Number(n / 1000) + Three(n % 1000)
  {
    hide Digit, Three, Repeat;
    if n < 1000 {
      FewDigits(n);
    } else {
      NumberOfThree(n / 1000);
      LastThree(n);
      ThreeLength(n % 1000);
      hide Number;
    }
  }

  lemma FewDigits(n: int)
    requires 0 <= n < 1000
    ensures |Number(n)| <= 3
    ensures Padded(n, '0', 6) == Repeat('0', 3 - |Number(n / 1000)|) + Number(n / 1000) + Three(n % 1000)
  {
    hide Digit, Three;
    NumberOfThree(n);
    assert Number(n / 1000) == [Digit(0)] == "0" by { ZeroDigit(); }
    var k := |Number(n)|;
    assert k <= 3 by { AtMostThree(n); }
    RepeatMore('0', 3, 3 - k);
    assert Repeat('0', 3) == "0" + Repeat('0', 2);
    RepeatMore('0', 2, 1);
    OneAndNone('0');
    hide Number, Repeat;
    assert Repeat('0', 6 - k) + Number(n) == Repeat('0', 3) + (Repeat('0', 3 - k) + Number(n));
  }

  lemma ZeroDigit()
    ensures [Digit(0)] == "0"
  {
  }

  lemma AtMostThree(n: int)
    requires 0 <= n < 1000
    ensures |Number(n)| <= 3
  {
    hide Digit;
    if n >= 100 {
      NumberOfTwo(n / 10);
    } else {
      NumberOfTwo(n);
    }
  }

  lemma LastThree(n: int)
    requires 1000 <= n < 1000000
    ensures Number(n) == Number(n / 1000) + Three(n % 1000) && |Number(n / 1000)| <= 3
  {
    hide Digit;
    AtMostThree(n / 1000);
    var a, b, c := n / 10, n / 100, n / 1000;
    assert Number(n) == Number(a) + [Digit(n % 10)];
    assert Number(a) == Number(b) + [Digit(a % 10)];
    assert Number(b) == Number(c) + [Digit(b % 10)];
    hide Number;
    var m := n % 1000;
    assert m / 100 == b % 10 && m % 100 / 10 == a % 10 && m % 100 % 10 == n % 10;
    assert Three(m) == [Digit(b % 10), Digit(a % 10), Digit(n % 10)];
  }

  lemma {:induction false} RepeatMore(c: char, m: int, n: int)
    requires m >= 0 && n >= 0
    ensures Repeat(c, m + n) == Repeat(c, m) + Repeat(c, n)
  {
    if m > 0 {
      RepeatMore(c, m - 1, n);
    }
  }

  predicate StartsWithDigit(s: string) { s != "" && IsDigit(s[0]) }

  predicate StartsWithLetter(s: string) { s != "" && IsLetter(s[0]) }

  lemma DigitBack(n: int)
    requires 0 <= n <= 9
    ensures IsDigit(Digit(n)) && DigitValue(Digit(n)) == n
  {
  }

  lemma TakeDigit(value: int, n: int, after: string, k: nat)
    requires 0 <= n <= 9 && k > 0
    ensures TakeNumber(value, [Digit(n)] + after, k) == TakeNumber(value * 10 + n, after, k - 1)
    ensures TakeAll(value, [Digit(n)] + after) == TakeAll(value * 10 + n, after)
    ensures TakeFraction(value, [Digit(n)] + after, k) == TakeFraction(value * 10 + n, after, k - 1)
  {
    DigitBack(n);
    var s := [Digit(n)] + after;
    assert s[1..] == after;
  }

  lemma TakeTwo(value: int, n: int, after: string, k: nat)
    requires 0 <= n < 100 && k > 1
    ensures TakeNumber(value, Two(n) + after, k) == TakeNumber(value * 100 + n, after, k - 2)
    ensures TakeAll(value, Two(n) + after) == TakeAll(value * 100 + n, after)
    ensures TakeFraction(value, Two(n) + after, k) == TakeFraction(value * 100 + n, after, k - 2)
  {
    hide TakeNumber, TakeAll, TakeFraction, Digit;
    assert Two(n) + after == [Digit(n / 10)] + ([Digit(n % 10)] + after);
    TakeDigit(value, n / 10, [Digit(n % 10)] + after, k);
    TakeDigit(value * 10 + n / 10, n % 10, after, k - 1);
  }

  /** No number goes on. */
  lemma TakeNothing(value: int, after: string)
    ensures TakeNumber(value, after, 0) == TakeFraction(value, after, 0) == (value, after)
    ensures !StartsWithDigit(after) ==> TakeAll(value, after) == (value, after) && DropDigits(after) == after
    ensures !StartsWithDigit(after) ==> forall k: nat :: TakeNumber(value, after, k) == (value, after)
  {
  }

  lemma TwoReads(n: int, after: string)
    requires 0 <= n < 100
    ensures TakeNumber(0, Two(n) + after, 2) == (n, after)
  {
    hide TakeNumber;
    TakeTwo(0, n, after, 2);
    TakeNothing(n, after);
  }

  lemma FourReads(n: int, after: string)
    requires 0 <= n < 10000
    ensures TakeNumber(0, Padded(n, '0', 4) + after, 4) == (n, after)
    ensures !StartsWithDigit(after) ==> TakeAll(0, Padded(n, '0', 4) + after) == (n, after)
  {
    hide TakeNumber, TakeAll, Padded, Two, StartsWithDigit;
    NumberOfFour(n);
    assert Two(n / 100) + Two(n % 100) + after == Two(n / 100) + (Two(n % 100) + after);
    TakeTwo(0, n / 100, Two(n % 100) + after, 4);
    TakeTwo(n / 100, n % 100, after, 2);
    TakeNothing(n, after);
  }

  lemma ThreeReads(n: int, after: string)
    requires 0 <= n < 1000
    ensures TakeFraction(0, Three(n) + after, 3) == (n, after)
  {
    hide TakeFraction, Two;
    assert Three(n) + after == [Digit(n / 100)] + (Two(n % 100) + after);
    TakeDigit(0, n / 100, Two(n % 100) + after, 3);
    TakeTwo(n / 100, n % 100, after, 2);
    TakeNothing(n, after);
  }

  predicate NoDigits(s: string) { forall i :: 0 <= i < |s| ==> !IsDigit(s[i]) }

  lemma {:induction false} JunkDropped(lit: string, s: string)
    requires NoDigits(lit) && StartsWithDigit(s)
    ensures DropJunk(lit + s) == s
  {
    if lit == "" {
      assert lit + s == s;
    } else {
      JunkDropped(lit[1..], s);
      assert (lit + s)[1..] == lit[1..] + s;
    }
  }

  // ---------------------------------------------------------------- printed words are read back

  predicate AllLetters(s: string) { forall i :: 0 <= i < |s| ==> IsLetter(s[i]) }

  predicate AllBlank(s: string) { forall i :: 0 <= i < |s| ==> IsBlank(s[i]) }

  lemma {:induction false} WordRead(word: string, after: string)
    requires AllLetters(word) && !StartsWithLetter(after)
    ensures Letters(word + after) == word && DropLetters(word + after) == after
  {
    if word == "" {
      assert word + after == after;
    } else {
      WordRead(word[1..], after);
      assert (word + after)[1..] == word[1..] + after;
    }
  }

  lemma {:induction false} BlanksDropped(lit: string, s: string)
    requires AllBlank(lit) && s != "" && !IsBlank(s[0])
    ensures DropBlanks(lit + s) == s
  {
    if lit == "" {
      assert lit + s == s;
    } else {
      BlanksDropped(lit[1..], s);
      assert (lit + s)[1..] == lit[1..] + s;
    }
  }

  /** Blanks and marks in front of the name of a month. */
  predicate AllSkipped(s: string) { forall i :: 0 <= i < |s| ==> IsBlank(s[i]) || IsMark(s[i]) }

  lemma {:induction false} MarksDropped(lit: string, s: string)
    requires AllSkipped(lit) && s != "" && !IsBlank(s[0]) && !IsMark(s[0])
    ensures DropBlanksAndMarks(lit + s) == s
  {
    if lit == "" {
      assert lit + s == s;
    } else {
      MarksDropped(lit[1..], s);
      assert (lit + s)[1..] == lit[1..] + s;
    }
  }

  lemma LetterIsNoMark(c: char)
    requires IsLetter(c)
    ensures !IsBlank(c) && !IsMark(c) && !IsDigit(c)
  {
  }

  function ShortMonth(m: int): string
    requires 1 <= m <= 12
  {
    MonthName(m)[..3]
  }

  lemma ShortMonthWord(m: int)
    requires 1 <= m <= 12
    ensures |ShortMonth(m)| == 3 && AllLetters(ShortMonth(m))
    ensures [ToUpper(ShortMonth(m)[0])] + LowerAll(ShortMonth(m)[1..]) == ShortMonth(m)
  {
    var s := ShortMonth(m);
    LowerTwo(s[1..]);
  }

  lemma LowerTwo(s: string)
    requires |s| == 2
    ensures LowerAll(s) == [ToLower(s[0]), ToLower(s[1])]
  {
    assert s[1..][1..] == "";
    assert LowerAll(s[1..]) == [ToLower(s[1])];
  }

  /** No two months begin with the same three letters. */
  lemma MonthsDiffer(m: int, n: int)
    requires 1 <= m <= 12 && 1 <= n <= 12 && ShortMonth(m) <= MonthName(n)
    ensures m == n
  {
    assert MonthName(n)[0] == ShortMonth(m)[0] && MonthName(n)[1] == ShortMonth(m)[1]
           && MonthName(n)[2] == ShortMonth(m)[2];
  }

  /** A name of a month that can be read: the short or the full one. */
  predicate IsMonthWord(name: string, m: int)
    requires 1 <= m <= 12
  {
    name == ShortMonth(m) || name == MonthName(m)
  }

  lemma {:induction false} MonthFound(name: string, m: int, from: int)
    requires 1 <= from <= m <= 12 && ShortMonth(m) <= name <= MonthName(m)
    ensures MonthOf(name, from) == Some(m)
    decreases 13 - from
  {
    hide ShortMonth, MonthName;
    if from < m {
      if name <= MonthName(from) {
        MonthsDiffer(m, from);
      }
      MonthFound(name, m, from + 1);
    }
  }

  lemma MonthWord(name: string, m: int)
    requires 1 <= m <= 12 && IsMonthWord(name, m)
    ensures |name| >= 3 && AllLetters(name) && ShortMonth(m) <= name <= MonthName(m)
    ensures [ToUpper(name[0])] + LowerAll(name[1..]) == name
  {
    if name == ShortMonth(m) {
      ShortMonthWord(m);
    } else {
      FullMonthWord(m);
    }
  }

  lemma FullMonthWord(m: int)
    requires 1 <= m <= 12
    ensures var name := MonthName(m);
            |name| >= 3 && AllLetters(name) && ToUpper(name[0]) == name[0] && LowerAll(name[1..]) == name[1..]
  {
    hide MonthName, LowerAll;
    if m <= 6 {
      FirstHalf(m);
    } else {
      SecondHalf(m);
    }
    AllLower(MonthName(m)[1..]);
  }

  /** A capital letter and lower-case ones. */
  predicate IsName(s: string) {
    |s| >= 3 && 'A' <= s[0] <= 'Z' && forall i :: 0 < i < |s| ==> 'a' <= s[i] <= 'z'
  }

  lemma FirstHalf(m: int)
    requires 1 <= m <= 6
    ensures IsName(MonthName(m))
  {
  }

  lemma SecondHalf(m: int)
    requires 7 <= m <= 12
    ensures IsName(MonthName(m))
  {
  }

  lemma {:induction false} AllLower(s: string)
    requires forall i :: 0 <= i < |s| ==> ToLower(s[i]) == s[i]
    ensures LowerAll(s) == s
  {
    if s != "" {
      AllLower(s[1..]);
    }
  }

  lemma MonthRead(lit: string, m: int, name: string, after: string)
    requires AllSkipped(lit) && 1 <= m <= 12 && IsMonthWord(name, m) && !StartsWithLetter(after)
    ensures TakeMonth(lit + (name + after)) == Some((m, after))
  {
    hide IsMonthWord, ShortMonth, MonthName, MonthOf, ToUpper, LowerAll, DropBlanksAndMarks, Letters, DropLetters,
      IsLetter, IsBlank, IsMark;
    MonthWord(name, m);
    LetterIsNoMark(name[0]);
    MarksDropped(lit, name + after);
    WordRead(name, after);
    MonthFound(name, m, 1);
  }

  lemma WeekdayWord(day: int)
    ensures AllLetters(WeekdayName(day)) && |WeekdayName(day)| >= 6 && AllLetters(WeekdayName(day)[..3])
  {
  }

  lemma WordSkipped(lit: string, word: string, after: string)
    requires AllBlank(lit) && word != "" && AllLetters(word) && !StartsWithLetter(after)
    ensures DropLetters(DropBlanks(lit + (word + after))) == after
  {
    hide DropBlanks, DropLetters;
    LetterIsNoMark(word[0]);
    BlanksDropped(lit, word + after);
    WordRead(word, after);
  }

  // ---------------------------------------------------------------- printed offsets are read back

  /** The offsets a format can carry: UTC, or whole minutes under a hundred hours. */
  predicate IsZone(zone: int) { zone == UTC || (-360000 < zone < 360000 && zone % 60 == 0) }

  /** What such an offset is read as. */
  function ZoneRead(zone: int): int { if zone == UTC then 0 else zone }

  lemma OffsetRead(sign: char, hours: int, minutes: int, colon: string)
    requires (sign == '+' || sign == '-') && 0 <= hours < 100 && 0 <= minutes < 60 && (colon == ":" || colon == "")
    ensures TakeOffset([sign] + (Two(hours) + (colon + (Two(minutes) + "")))) ==
              (if sign == '+' then hours * 3600 + minutes * 60 else -(hours * 3600 + minutes * 60), "")
  {
    hide TakeNumber, Digit;
    var m := Two(minutes) + "";
    var s := [sign] + (Two(hours) + (colon + m));
    assert s[1..] == Two(hours) + (colon + m);
    TwoReads(hours, colon + m);
    TwoReads(minutes, "");
    TwoDigits(minutes);
    if colon == ":" {
      assert (colon + m)[1..] == m;
    } else {
      assert colon + m == m;
    }
  }

  lemma TwoDigits(n: int)
    requires 0 <= n < 100
    ensures StartsWithDigit(Two(n)) && NoMarks(Two(n)) && Two(n)[0] != ':'
  {
    DigitBack(n / 10);
    DigitBack(n % 10);
  }

  predicate NoMarks(s: string) { forall i :: 0 <= i < |s| ==> IsDigit(s[i]) }

  lemma ZoneSigned(zone: int, colon: string)
    requires IsZone(zone) && zone != UTC
    ensures var (sign, seconds) := if zone >= 0 then ('+', zone) else ('-', -zone);
            && 0 <= seconds / 3600 < 100 && 0 <= seconds % 3600 / 60 < 60
            && seconds == seconds / 3600 * 3600 + seconds % 3600 / 60 * 60
            && ZoneText(zone, "", colon) == [sign] + (Two(seconds / 3600) + (colon + (Two(seconds % 3600 / 60) + "")))
  {
    hide Two, Padded;
    var seconds := if zone >= 0 then zone else -zone;
    assert seconds % 60 == 0;
    assert seconds / 3600 < 100;
    NumberOfTwo(seconds / 3600);
    NumberOfTwo(seconds % 3600 / 60);
  }

  lemma NoLettersTaken(s: string, n: nat)
    requires !StartsWithLetter(s)
    ensures TakeLetters(s, n) == ""
  {
  }

  lemma ZoneTextRead(lit: string, zone: int, utc: string, colon: string)
    requires AllBlank(lit) && IsZone(zone) && ((utc == "Z" && colon == ":") || (utc == "GMT" && colon == ""))
    ensures TakeZone(lit + ZoneText(zone, utc, colon)) == (ZoneRead(zone), "")
  {
    hide TakeOffset, DropBlanks, ZoneOf, TakeLetters;
    var s := ZoneText(zone, utc, colon);
    if zone == UTC {
      BlanksDropped(lit, s);
      UtcRead(utc);
    } else {
      SignedRead(lit, zone, colon);
      assert ZoneText(zone, utc, colon) == ZoneText(zone, "", colon);
    }
  }

  lemma UtcRead(utc: string)
    requires utc == "Z" || utc == "GMT"
    ensures TakeLetters(utc, 4) == utc && ZoneOf(utc, ZONES) == 0 && TakeOffset("") == (0, "") && utc[|utc|..] == ""
  {
    hide TakeLetters, ZoneOf, TakeOffset;
    LettersOfUtc(utc);
    FirstZones();
    TakeNoOffset();
    if utc == "GMT" {
      ThirdZone(utc, ZONES);
    } else {
      FirstZone(utc, ZONES);
    }
  }

  lemma TakeNoOffset()
    ensures TakeOffset("") == (0, "")
  {
  }

  lemma FirstZone(designator: string, zones: seq<(string, int)>)
    requires zones != [] && zones[0].0 == designator
    ensures ZoneOf(designator, zones) == zones[0].1
  {
  }

  lemma ThirdZone(designator: string, zones: seq<(string, int)>)
    requires |zones| >= 3 && zones[0].0 != designator && zones[1].0 != designator && zones[2].0 == designator
    ensures ZoneOf(designator, zones) == zones[2].1
  {
    assert zones[1..][0] == zones[1] && zones[1..][1..][0] == zones[2];
    assert ZoneOf(designator, zones[1..]) == ZoneOf(designator, zones[1..][1..]);
  }

  lemma FirstZones()
    ensures |ZONES| >= 3 && ZONES[0] == ("Z", 0) && ZONES[1] == ("UT", 0) && ZONES[2] == ("GMT", 0)
  {
  }

  lemma LettersOfUtc(utc: string)
    requires utc == "Z" || utc == "GMT"
    ensures TakeLetters(utc, 4) == utc
  {
    if utc == "GMT" {
      assert utc[1..] == "MT" && "MT"[1..] == "T" && "T"[1..] == "";
      assert TakeLetters("T", 2) == "T";
      assert TakeLetters("MT", 3) == "MT";
    } else {
      assert utc[1..] == "";
    }
  }

  lemma SignedRead(lit: string, zone: int, colon: string)
    requires AllBlank(lit) && IsZone(zone) && zone != UTC && (colon == ":" || colon == "")
    ensures TakeZone(lit + ZoneText(zone, "", colon)) == (zone, "")
  {
    hide TakeOffset, DropBlanks, ZoneText, TakeLetters, ZoneOf, Two;
    var s := ZoneText(zone, "", colon);
    ZoneSigned(zone, colon);
    BlanksDropped(lit, s);
    NoLettersTaken(s, 4);
    NoDesignator();
    assert s[|""|..] == s;
    var (sign, seconds) := if zone >= 0 then ('+', zone) else ('-', -zone);
    OffsetRead(sign, seconds / 3600, seconds % 3600 / 60, colon);
  }

  lemma NoDesignator()
    ensures ZoneOf("", ZONES) == 0
  {
    NotAmong("", ZONES);
  }

  lemma {:induction false} NotAmong(designator: string, zones: seq<(string, int)>)
    requires forall i :: 0 <= i < |zones| ==> zones[i].0 != designator
    ensures ZoneOf(designator, zones) == 0
  {
    if zones != [] {
      NotAmong(designator, zones[1..]);
    }
  }

  // ---------------------------------------------------------------- one chunk is read back

  /** What reading a chunk learns about the moment: of a year of two digits, what they stand for. */
  function Learned(ch: Chunk, r: Reading, x: Moment): Reading {
    var (c, d, t) := (ch.read, x.date, x.clock);
    if c == 'b' || c == 'B' || c == 'm' then r.(month := d.month)
    else if c == 'd' || c == 'e' || c == 'f' then r.(day := d.day)
    else if c == 'Y' || c == 'r' then r.(year := YearLearned(ch, d.year))
    else if c == 'H' then r.(hour := t.hour)
    else if c == 'M' then r.(minute := t.minute)
    else if c == 'S' then r.(second := t.second)
    else if c == 's' then r.(second := t.second, millis := t.millisecond, micros := t.microsecond)
    else if c == 'z' || c == 'Z' then r.(tzd := ZoneRead(x.zone))
    else r
  }

  /** A number below 1000 that is read as a year of two or four digits is a year of two. */
  function YearLearned(ch: Chunk, year: int): int {
    if ch.print_ == 'y' then FullYear(year % 100) else if ch.read == 'r' && year < 1000 then FullYear(year) else year
  }

  predicate IsWeekday(c: char) { c == 'w' || c == 'W' }

  predicate IsMonthName(c: char) { c == 'b' || c == 'B' }

  predicate IsZoneSpec(c: char) { c == 'z' || c == 'Z' }

  /** A chunk that can be read back, whatever the moment, if this text follows. */
  predicate Readable(ch: Chunk, r: Reading, after: string) {
    if IsWeekday(ch.read) then IsWeekday(ch.print_) && AllBlank(ch.lit) && !StartsWithLetter(after)
    else if IsMonthName(ch.read) then IsMonthName(ch.print_) && AllSkipped(ch.lit) && !StartsWithLetter(after)
    else if IsZoneSpec(ch.read) then ch.print_ == ch.read && AllBlank(ch.lit) && after == ""
    else NoDigits(ch.lit) && ReadableNumber(ch, r, after)
  }

  predicate ReadableNumber(ch: Chunk, r: Reading, after: string) {
    if ch.read == 'e' || ch.read == 'f' then
      (ch.print_ == 'd' || ch.print_ == ch.read) && !StartsWithDigit(after) && r.day == 0
    else if ch.read == 'm' then ch.print_ == 'm' && r.month == 0
    else if ch.read == 'd' then ch.print_ == 'd' && r.day == 0
    else if ch.read == 'Y' then ch.print_ == 'Y' && r.year == 0
    else if ch.read == 'r' then (ch.print_ == 'Y' || ch.print_ == 'y') && !StartsWithDigit(after) && r.year == 0
    else if ch.read == 'H' then ch.print_ == 'H' && r.hour == 0
    else if ch.read == 'M' then ch.print_ == 'M' && r.minute == 0
    else if ch.read == 'S' then ch.print_ == 'S' && r.second == 0
    else if ch.read == 's' then
      ch.print_ == 's' && !StartsWithDigit(after) && r.second == 0 && r.millis == 0 && r.micros == 0
    else false
  }

  predicate Printable(x: Moment) { IsMoment(x) && IsZone(x.zone) }

  lemma JunkAndTwo(lit: string, n: int, after: string)
    requires NoDigits(lit) && 0 <= n < 100
    ensures TakeNumber(0, DropJunk(lit + (Padded(n, '0', 2) + after)), 2) == (n, after)
    ensures !StartsWithDigit(after) ==> TakeAll(0, DropJunk(lit + (Padded(n, '0', 2) + after))) == (n, after)
  {
    hide TakeNumber, TakeAll, DropJunk, Padded, Two, StartsWithDigit;
    NumberOfTwo(n);
    TwoDigits(n);
    DigitStart(Two(n), after);
    JunkDropped(lit, Two(n) + after);
    TwoReads(n, after);
    TakeTwo(0, n, after, 2);
    TakeNothing(n, after);
  }

  lemma DigitStart(s: string, after: string)
    requires StartsWithDigit(s)
    ensures StartsWithDigit(s + after)
  {
  }

  lemma JunkAndFour(lit: string, n: int, after: string)
    requires NoDigits(lit) && 0 <= n < 10000
    ensures TakeNumber(0, DropJunk(lit + (Padded(n, '0', 4) + after)), 4) == (n, after)
    ensures !StartsWithDigit(after) ==> TakeAll(0, DropJunk(lit + (Padded(n, '0', 4) + after))) == (n, after)
  {
    hide TakeNumber, TakeAll, DropJunk, Padded, Two;
    NumberOfFour(n);
    TwoDigits(n / 100);
    JunkDropped(lit, Padded(n, '0', 4) + after);
    FourReads(n, after);
  }

  /** A day of one or two digits, or padded with a blank. */
  lemma JunkAndDay(lit: string, n: int, after: string)
    requires NoDigits(lit) && 1 <= n <= 31 && !StartsWithDigit(after)
    ensures TakeNumber(0, DropJunk(lit + (Number(n) + after)), 2) == (n, after)
    ensures TakeNumber(0, DropJunk(lit + (Padded(n, ' ', 2) + after)), 2) == (n, after)
  {
    hide TakeNumber, DropJunk, Padded, Two, Number, Digit;
    NumberOfTwo(n);
    if n < 10 {
      DigitBack(n);
      JunkDropped(lit, [Digit(n)] + after);
      JunkDropped(lit + " ", [Digit(n)] + after);
      assert lit + ([' ', Digit(n)] + after) == lit + " " + ([Digit(n)] + after);
      TakeDigit(0, n, after, 2);
      TakeNothing(n, after);
    } else {
      TwoDigits(n);
      JunkDropped(lit, Two(n) + after);
      TwoReads(n, after);
    }
  }

  lemma JunkAndSeconds(lit: string, r: Reading, x: Moment, after: string)
    requires NoDigits(lit) && IsMoment(x) && !StartsWithDigit(after) && r.second == 0 && r.millis == 0 && r.micros == 0
    requires r.rest == lit + (Piece('s', x) + after)
    ensures ReadSeconds(r.(rest := DropJunk(r.rest))) == Learned(Chunk(lit, 's', 's'), r, x).(rest := after)
  {
    hide TakeNumber, TakeFraction, DropJunk, DropDigits, Padded, Two, Three, IsMoment;
    var t := x.clock;
    SecondsPiece(x);
    var tail := Three(t.millisecond) + (Three(t.microsecond) + after);
    var s := Two(t.second) + ("." + tail);
    assert Piece('s', x) + after == s;
    TwoDigits(t.second);
    JunkDropped(lit, s);
    TwoReads(t.second, "." + tail);
    assert ("." + tail)[1..] == tail;
    ThreeReads(t.millisecond, Three(t.microsecond) + after);
    ThreeReads(t.microsecond, after);
    TakeNothing(0, after);
  }

  lemma SecondsPiece(x: Moment)
    requires IsMoment(x)
    ensures 0 <= x.clock.second < 100 && 0 <= x.clock.millisecond < 1000 && 0 <= x.clock.microsecond < 1000
    ensures Piece('s', x) == Two(x.clock.second) + "." + (Three(x.clock.millisecond) + Three(x.clock.microsecond))
  {
    hide Two, Three, Padded, DaysOfMonth, DayNumber, WeekdayName, MonthName;
    var n := x.clock.millisecond * 1000 + x.clock.microsecond;
    NumberOfTwo(x.clock.second);
    NumberOfSix(n);
    assert n / 1000 == x.clock.millisecond && n % 1000 == x.clock.microsecond;
  }

  /** Reading a chunk undoes printing it. */
  lemma ChunkRead(ch: Chunk, r: Reading, x: Moment, after: string)
    requires Printable(x) && Readable(ch, r, after)
    requires r.rest == ch.lit + (Piece(ch.print_, x) + after)
    ensures ReadSpec(ch.read, r) == Some(Learned(ch, r, x).(rest := after))
  {
    if IsWeekday(ch.read) || IsMonthName(ch.read) || IsZoneSpec(ch.read) {
      WordChunkRead(ch, r, x, after);
    } else {
      NumberChunkRead(ch, r, x, after);
    }
  }

  lemma WordChunkRead(ch: Chunk, r: Reading, x: Moment, after: string)
    requires Printable(x) && Readable(ch, r, after)
    requires IsWeekday(ch.read) || IsMonthName(ch.read) || IsZoneSpec(ch.read)
    requires r.rest == ch.lit + (Piece(ch.print_, x) + after)
    ensures ReadSpec(ch.read, r) == Some(Learned(ch, r, x).(rest := after))
  {
    hide TakeMonth, TakeZone, DropLetters, DropBlanks, ReadNumber, Padded, Number, ZoneText, MonthName, WeekdayName,
      DayNumber, DayOfWeek, DaysOfMonth, YearLearned;
    if IsWeekday(ch.read) {
      var day := DayOfWeek(DayNumber(x.date));
      WeekdayWord(day);
      WordSkipped(ch.lit, WeekdayName(day)[..3], after);
      WordSkipped(ch.lit, WeekdayName(day), after);
    } else if IsMonthName(ch.read) {
      MonthRead(ch.lit, x.date.month, ShortMonth(x.date.month), after);
      MonthRead(ch.lit, x.date.month, MonthName(x.date.month), after);
    } else {
      assert Piece(ch.print_, x) + after == Piece(ch.print_, x);
      if ch.read == 'z' {
        ZoneTextRead(ch.lit, x.zone, "Z", ":");
      } else {
        ZoneTextRead(ch.lit, x.zone, "GMT", "");
      }
    }
  }

  lemma NumberChunkRead(ch: Chunk, r: Reading, x: Moment, after: string)
    requires Printable(x) && Readable(ch, r, after)
    requires !IsWeekday(ch.read) && !IsMonthName(ch.read) && !IsZoneSpec(ch.read)
    requires r.rest == ch.lit + (Piece(ch.print_, x) + after)
    ensures ReadSpec(ch.read, r) == Some(Learned(ch, r, x).(rest := after))
  {
    hide TakeMonth, TakeZone, TakeAmPm, DropLetters, DropBlanks, TakeNumber, TakeAll, DropJunk, Padded, Number,
      ZoneText, MonthName, WeekdayName, DayNumber, DayOfWeek, IsLeapYear, ReadSeconds, ReadFraction, AllBlank,
      AllSkipped, NoDigits, StartsWithDigit, StartsWithLetter;
    var (d, t) := (x.date, x.clock);
    if ch.read == 's' {
      JunkAndSeconds(ch.lit, r, x, after);
    } else if ch.read == 'Y' || ch.read == 'r' {
      JunkAndFour(ch.lit, d.year, after);
      JunkAndTwo(ch.lit, d.year % 100, after);
    } else if ch.read == 'e' || ch.read == 'f' {
      JunkAndDay(ch.lit, d.day, after);
      JunkAndTwo(ch.lit, d.day, after);
    } else {
      var n := if ch.read == 'd' then d.day else if ch.read == 'm' then d.month else if ch.read == 'H' then t.hour
               else if ch.read == 'M' then t.minute else t.second;
      JunkAndTwo(ch.lit, n, after);
    }
  }

  // ---------------------------------------------------------------- whole formats

  /** What all chunks tell. */
  function LearnedAll(chs: seq<Chunk>, r: Reading, x: Moment): Reading {
    if chs == [] then r else LearnedAll(chs[1..], Learned(chs[0], r, x), x)
  }

  /** Every chunk can be read back: the text behind it begins with what comes next. */
  predicate AllReadable(chs: seq<Chunk>, r: Reading, x: Moment)
    requires IsMoment(x)
  {
    chs == [] || (NoPercent(chs[0].lit) && Readable(chs[0], r, Pieces(chs[1..], x))
                  && AllReadable(chs[1..], Learned(chs[0], r, x), x))
  }

  /** Reading with a format undoes printing with the format it goes with. */
  lemma {:induction false} ReadUndoesPrint(chs: seq<Chunk>, r: Reading, x: Moment)
    requires Printable(x) && AllReadable(chs, r, x) && r.rest == Pieces(chs, x)
    ensures Read(ReadFormat(chs), r) == Some(LearnedAll(chs, r, x).(rest := ""))
    decreases |chs|
  {
    hide Readable, ReadSpec, Learned, Piece, Read, ReadFormat, IsMoment, IsZone;
    if chs == [] {
      ReadNothing(chs, r);
    } else {
      var after := Pieces(chs[1..], x);
      ReadableText(chs[0], r, x, after);
      ReadChunk(chs, r);
      ChunkRead(chs[0], r, x, after);
      var q := Learned(chs[0], r, x).(rest := after);
      RestDoesNotMatter(chs[1..], Learned(chs[0], r, x), after, x);
      ReadUndoesPrint(chs[1..], q, x);
    }
  }

  lemma ReadNothing(chs: seq<Chunk>, r: Reading)
    requires chs == []
    ensures Read(ReadFormat(chs), r) == Some(r)
  {
  }

  lemma ReadableText(ch: Chunk, r: Reading, x: Moment, after: string)
    requires Printable(x) && Readable(ch, r, after)
    ensures ch.lit + (Piece(ch.print_, x) + after) != ""
  {
    hide Number, Repeat, DayNumber, DayOfWeek, AllBlank, NoDigits, StartsWithDigit, StartsWithLetter, DaysOfMonth;
    var d, t := x.date, x.clock;
    WeekdayWord(DayOfWeek(DayNumber(d)));
    NumbersAreText(d.day);
    NumbersAreText(d.month);
    NumbersAreText(d.year);
    NumbersAreText(d.year % 100);
    MonthsAreText(d.month);
    NumbersAreText(t.hour);
    NumbersAreText(t.minute);
    NumbersAreText(t.second);
  }

  lemma MonthsAreText(m: int)
    requires 1 <= m <= 12
    ensures |MonthName(m)| >= 3
  {
  }

  lemma NumbersAreText(n: nat)
    ensures Number(n) != ""
  {
  }

  /** What is learned does not depend on the text left. */
  lemma {:induction false} RestDoesNotMatter(chs: seq<Chunk>, r: Reading, s: string, x: Moment)
    requires IsMoment(x)
    ensures AllReadable(chs, r.(rest := s), x) == AllReadable(chs, r, x)
    ensures LearnedAll(chs, r.(rest := s), x).(rest := "") == LearnedAll(chs, r, x).(rest := "")
    decreases |chs|
  {
    hide Pieces, NoPercent;
    if chs != [] {
      var q := Learned(chs[0], r, x);
      assert Learned(chs[0], r.(rest := s), x) == q.(rest := s);
      assert Readable(chs[0], r.(rest := s), Pieces(chs[1..], x)) == Readable(chs[0], r, Pieces(chs[1..], x));
      hide Learned, Readable;
      RestDoesNotMatter(chs[1..], q, s, x);
    }
  }

  // ---------------------------------------------------------------- which formats can be read back

  /** The field a specifier reads. */
  function FieldOf(c: char): int {
    if c == 'b' || c == 'B' || c == 'm' then 1
    else if c == 'd' || c == 'e' || c == 'f' then 2
    else if c == 'Y' || c == 'r' then 3
    else if c == 'H' then 4
    else if c == 'M' then 5
    else if c == 'S' || c == 's' then 6
    else 0
  }

  /** These specifiers go together: the same, or names and numbers in their shorter and longer forms. */
  predicate Matches(print_: char, read: char) {
    || (print_ == read && (IsZoneSpec(read) || FieldOf(read) > 0) && read != 'r')
    || (IsWeekday(print_) && IsWeekday(read)) || (IsMonthName(print_) && IsMonthName(read))
    || (print_ == 'd' && (read == 'e' || read == 'f'))
    || ((print_ == 'Y' || print_ == 'y') && read == 'r')
  }

  /** Nothing that follows could be taken for more of this field. */
  predicate Ends(read: char, next: Option<Chunk>) {
    if next == None then true
    else if IsZoneSpec(read) then false
    else if IsWeekday(read) || IsMonthName(read) || read == 'e' || read == 'f' || read == 'r' || read == 's' then
      if next.value.lit != "" then !IsDigit(next.value.lit[0]) && !IsLetter(next.value.lit[0])
      else read == 's' && IsZoneSpec(next.value.print_)
    else true
  }

  predicate Fits(c: Chunk, next: Option<Chunk>) {
    && Matches(c.print_, c.read) && NoPercent(c.lit) && Ends(c.read, next)
    && if FieldOf(c.read) == 0 then AllBlank(c.lit)
       else if IsMonthName(c.read) then AllSkipped(c.lit)
       else NoDigits(c.lit)
  }

  function NextOf(chs: seq<Chunk>, i: nat): Option<Chunk> { if i + 1 < |chs| then Some(chs[i + 1]) else None }

  /** A format that can be read back: no field twice, words and zones behind blanks, a zone at the
      end only, and no field that goes on into the next. */
  predicate WellFormed(chs: seq<Chunk>) {
    && (forall i :: 0 <= i < |chs| ==> Fits(chs[i], NextOf(chs, i)))
    && (forall i, j :: 0 <= i < j < |chs| ==> FieldOf(chs[i].read) == 0 || FieldOf(chs[i].read) != FieldOf(chs[j].read))
  }

  predicate IsEmpty(r: Reading, field: int) {
    if field == 1 then r.month == 0 else if field == 2 then r.day == 0 else if field == 3 then r.year == 0
    else if field == 4 then r.hour == 0 else if field == 5 then r.minute == 0
    else if field == 6 then r.second == 0 && r.millis == 0 && r.micros == 0 else true
  }

  /** None of the fields to come has been read. */
  predicate Unread(r: Reading, chs: seq<Chunk>) {
    forall i :: 0 <= i < |chs| ==> IsEmpty(r, FieldOf(chs[i].read))
  }

  lemma EndsReadable(read: char, rest: seq<Chunk>, x: Moment)
    requires Printable(x) && Ends(read, if rest == [] then None else Some(rest[0]))
    ensures var after := Pieces(rest, x);
            && (IsZoneSpec(read) ==> after == "")
            && (IsWeekday(read) || IsMonthName(read) ==> !StartsWithLetter(after))
            && (read == 'e' || read == 'f' || read == 'r' || read == 's' ==> !StartsWithDigit(after))
  {
    if rest != [] && rest[0].lit == "" && (rest[0].print_ == 'z' || rest[0].print_ == 'Z') {
      ZoneStarts(x, rest[0].print_);
    }
    hide Piece;
  }

  lemma ZoneStarts(x: Moment, c: char)
    requires Printable(x) && (c == 'z' || c == 'Z')
    ensures Piece(c, x) != "" && !IsDigit(Piece(c, x)[0])
  {
    hide Padded, DayNumber, DayOfWeek, MonthName, WeekdayName, Number;
  }

  lemma {:induction false} WellFormedReadable(chs: seq<Chunk>, r: Reading, x: Moment)
    requires Printable(x) && WellFormed(chs) && Unread(r, chs)
    ensures AllReadable(chs, r, x)
    decreases |chs|
  {
    hide Pieces, Readable, IsMoment, IsZone, Fits, Learned, FieldOf, IsEmpty;
    if chs != [] {
      var c, rest := chs[0], chs[1..];
      assert NextOf(chs, 0) == if rest == [] then None else Some(rest[0]);
      assert Fits(c, NextOf(chs, 0));
      FirstReadable(c, rest, r, x);
      forall i | 0 <= i < |rest|
        ensures Fits(rest[i], NextOf(rest, i)) && IsEmpty(Learned(c, r, x), FieldOf(rest[i].read))
      {
        assert rest[i] == chs[i + 1] && NextOf(rest, i) == NextOf(chs, i + 1);
        assert IsEmpty(r, FieldOf(chs[i + 1].read));
        LearnsOne(c, rest[i].read, r, x);
      }
      WellFormedReadable(rest, Learned(c, r, x), x);
    }
  }

  lemma FirstReadable(c: Chunk, rest: seq<Chunk>, r: Reading, x: Moment)
    requires Printable(x) && Fits(c, if rest == [] then None else Some(rest[0])) && IsEmpty(r, FieldOf(c.read))
    ensures NoPercent(c.lit) && Readable(c, r, Pieces(rest, x))
  {
    hide Pieces, NoPercent, AllBlank, AllSkipped, NoDigits, StartsWithDigit, StartsWithLetter, IsMoment, IsZone;
    EndsReadable(c.read, rest, x);
  }

  lemma LearnsOne(c: Chunk, other: char, r: Reading, x: Moment)
    requires IsEmpty(r, FieldOf(other)) && (FieldOf(c.read) == 0 || FieldOf(c.read) != FieldOf(other))
    ensures IsEmpty(Learned(c, r, x), FieldOf(other))
  {
  }

  /** Whatever is printed with such a format is read back: every field the format has, for every
      date and time and every zone offset. */
  lemma FormatReadsBack(chs: seq<Chunk>, x: Moment)
    requires Printable(x) && WellFormed(chs)
    ensures Read(ReadFormat(chs), Start(Format(PrintFormat(chs), x)))
            == Some(LearnedAll(chs, Start(""), x).(rest := ""))
  {
    hide Format, Pieces, Read, ReadFormat, PrintFormat, AllReadable, LearnedAll, IsMoment, IsZone, NoPercent, NextOf,
      Ends;
    forall i | 0 <= i < |chs| ensures NoPercent(chs[i].lit) { assert Fits(chs[i], NextOf(chs, i)); }
    FormatPieces(chs, x);
    var s := Pieces(chs, x);
    WellFormedReadable(chs, Start(s), x);
    ReadUndoesPrint(chs, Start(s), x);
    RestDoesNotMatter(chs, Start(""), s, x);
  }

  predicate Reads(chs: seq<Chunk>, field: int) { exists i :: 0 <= i < |chs| && FieldOf(chs[i].read) == field }

  predicate ReadsAs(chs: seq<Chunk>, c: char) { exists i :: 0 <= i < |chs| && chs[i].read == c }

  lemma ReadsFirst(chs: seq<Chunk>, field: int, c: char)
    requires chs != []
    ensures Reads(chs, field) <==> FieldOf(chs[0].read) == field || Reads(chs[1..], field)
    ensures ReadsAs(chs, c) <==> chs[0].read == c || ReadsAs(chs[1..], c)
  {
    hide FieldOf;
    assert forall i :: 0 < i < |chs| ==> chs[i] == chs[1..][i - 1];
    if Reads(chs[1..], field) {
      var i :| 0 <= i < |chs[1..]| && FieldOf(chs[1..][i].read) == field;
      assert FieldOf(chs[i + 1].read) == field;
    }
    if ReadsAs(chs[1..], c) {
      var i :| 0 <= i < |chs[1..]| && chs[1..][i].read == c;
      assert chs[i + 1].read == c;
    }
  }

  /** A format tells of the date and the hour and the minute what it has fields for. */
  lemma {:induction false} DateLearned(chs: seq<Chunk>, r: Reading, x: Moment, year: int)
    requires forall i :: 0 <= i < |chs| && FieldOf(chs[i].read) == 3 ==> YearLearned(chs[i], x.date.year) == year
    ensures var q := LearnedAll(chs, r, x);
            && q.month == (if Reads(chs, 1) then x.date.month else r.month)
            && q.day == (if Reads(chs, 2) then x.date.day else r.day)
            && q.year == (if Reads(chs, 3) then year else r.year)
            && q.hour == (if Reads(chs, 4) then x.clock.hour else r.hour)
            && q.minute == (if Reads(chs, 5) then x.clock.minute else r.minute)
    decreases |chs|
  {
    hide Reads, YearLearned;
    if chs == [] {
      ReadsNothing(chs);
    } else {
      ReadsFirst(chs, 1, ' ');
      ReadsFirst(chs, 2, ' ');
      ReadsFirst(chs, 3, ' ');
      ReadsFirst(chs, 4, ' ');
      ReadsFirst(chs, 5, ' ');
      assert forall i :: 0 < i < |chs| ==> chs[i] == chs[1..][i - 1];
      DateLearned(chs[1..], Learned(chs[0], r, x), x, year);
    }
  }

  /** And of the seconds, their fraction and the zone. */
  lemma {:induction false} TimeLearned(chs: seq<Chunk>, r: Reading, x: Moment)
    ensures var q := LearnedAll(chs, r, x);
            && q.second == (if Reads(chs, 6) then x.clock.second else r.second)
            && q.millis == (if ReadsAs(chs, 's') then x.clock.millisecond else r.millis)
            && q.micros == (if ReadsAs(chs, 's') then x.clock.microsecond else r.micros)
            && q.tzd == (if ReadsAs(chs, 'z') || ReadsAs(chs, 'Z') then ZoneRead(x.zone) else r.tzd)
    decreases |chs|
  {
    hide Reads, ReadsAs;
    if chs == [] {
      ReadsNothing(chs);
    } else {
      ReadsFirst(chs, 6, 's');
      ReadsFirst(chs, 6, 'z');
      ReadsFirst(chs, 6, 'Z');
      TimeLearned(chs[1..], Learned(chs[0], r, x), x);
    }
  }

  lemma ReadsNothing(chs: seq<Chunk>)
    requires chs == []
    ensures forall field :: !Reads(chs, field)
    ensures forall c :: !ReadsAs(chs, c)
  {
  }
}
