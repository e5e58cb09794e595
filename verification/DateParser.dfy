/** The loops of the date parser: iterators over the text and the format. A `Reading` holds
    the local variables of the original, and the text from its iterator on.
 */
module DateParser {
  import opened Options
  import opened DateFormats
  import opened DateText

  method SkipJunk(str: string) returns (rest: string)
    ensures rest == DropJunk(str)
  {
    var it := 0;
    while it < |str| && !IsDigit(str[it])
      invariant it <= |str| && DropJunk(str) == DropJunk(str[it..])
    {
      it := it + 1;
    }
    rest := str[it..];
  }

  method SkipDigits(str: string) returns (rest: string)
    ensures rest == DropDigits(str)
  {
    var it := 0;
    while it < |str| && IsDigit(str[it])
      invariant it <= |str| && DropDigits(str) == DropDigits(str[it..])
    {
      it := it + 1;
    }
    rest := str[it..];
  }

  method SkipBlanks(str: string) returns (rest: string)
    ensures rest == DropBlanks(str)
  {
    var it := 0;
    while it < |str| && IsBlank(str[it])
      invariant it <= |str| && DropBlanks(str) == DropBlanks(str[it..])
    {
      it := it + 1;
    }
    rest := str[it..];
  }

  method SkipBlanksAndMarks(str: string) returns (rest: string)
    ensures rest == DropBlanksAndMarks(str)
  {
    var it := 0;
    while it < |str| && (IsBlank(str[it]) || IsMark(str[it]))
      invariant it <= |str| && DropBlanksAndMarks(str) == DropBlanksAndMarks(str[it..])
    {
      it := it + 1;
    }
    rest := str[it..];
  }

  /** PARSE_NUMBER_N */
  method ParseNumberN(value: int, str: string, n: nat) returns (v: int, rest: string)
    ensures (v, rest) == TakeNumber(value, str, n)
  {
    var it := 0;
    v := value;
    while it < n && it < |str| && IsDigit(str[it])
      invariant it <= n && it <= |str| && TakeNumber(value, str, n) == TakeNumber(v, str[it..], n - it)
    {
      v := v * 10 + DigitValue(str[it]);
      it := it + 1;
    }
    rest := str[it..];
  }

  /** PARSE_NUMBER */
  method ParseNumber(value: int, str: string) returns (v: int, rest: string)
    ensures (v, rest) == TakeAll(value, str)
  {
    var it := 0;
    v := value;
    while it < |str| && IsDigit(str[it])
      invariant it <= |str| && TakeAll(value, str) == TakeAll(v, str[it..])
    {
      v := v * 10 + DigitValue(str[it]);
      it := it + 1;
    }
    rest := str[it..];
  }

  /** PARSE_FRACTIONAL_N */
  method ParseFractionalN(value: int, str: string, n: nat) returns (v: int, rest: string)
    ensures (v, rest) == TakeFraction(value, str, n)
  {
    var it, i := 0, 0;
    v := value;
    while i < n && it < |str| && IsDigit(str[it])
      invariant i == it <= n && it <= |str| && TakeFraction(value, str, n) == TakeFraction(v, str[it..], n - i)
    {
      v := v * 10 + DigitValue(str[it]);
      it := it + 1;
      i := i + 1;
    }
    rest := str[it..];
    while i < n
      invariant i <= n && rest == str[it..] && (i < n ==> rest == "" || !IsDigit(rest[0]))
      invariant TakeFraction(value, str, n) == TakeFraction(v, rest, n - i)
    {
      v := v * 10;
      i := i + 1;
    }
  }

  /** The letters in front of a text: the first as an upper-case, the others as lower-case ones. */
  method TakeName(str: string) returns (name: string, rest: string)
    ensures rest == DropLetters(str)
    ensures name == var w := Letters(str); if w == "" then "" else [ToUpper(w[0])] + LowerAll(w[1..])
  {
    var it := 0;
    name := "";
    if str != "" && IsLetter(str[0]) {
      name := [ToUpper(str[0])];
      it := 1;
      while it < |str| && IsLetter(str[it])
        invariant 1 <= it <= |str| && DropLetters(str) == DropLetters(str[it..])
        invariant name + LowerAll(Letters(str[it..])) == [ToUpper(str[0])] + LowerAll(Letters(str[1..]))
      {
        LowerFirst(str[it..]);
        name := name + [ToLower(str[it])];
        it := it + 1;
      }
      assert Letters(str)[1..] == Letters(str[1..]);
    }
    rest := str[it..];
  }

  lemma LowerFirst(s: string)
    requires s != "" && IsLetter(s[0])
    ensures LowerAll(Letters(s)) == [ToLower(s[0])] + LowerAll(Letters(s[1..]))
  {
    assert Letters(s)[1..] == Letters(s[1..]);
  }

  /** parseMonth; not `ok` is the exception */
  method ParseMonth(str: string) returns (ok: bool, month: int, rest: string)
    ensures TakeMonth(str) == if ok then Some((month, rest)) else None
  {
    hide Letters, LowerAll, DropLetters, DropBlanksAndMarks, ToUpper, MonthName;
    month := 0;
    var t := SkipBlanksAndMarks(str);
    var name;
    name, rest := TakeName(t);
    LowerLength(if Letters(t) == "" then "" else Letters(t)[1..]);
    if |name| < 3 {
      return false, 0, rest;
    }
    var i := 0;
    while i < 12
      invariant 0 <= i <= 12 && MonthOf(name, 1) == MonthOf(name, i + 1)
    {
      if name <= MonthName(i + 1) {
        return true, i + 1, rest;
      }
      i := i + 1;
    }
    ok := false;
  }

  lemma {:induction false} LowerLength(s: string)
    ensures |LowerAll(s)| == |s|
  {
    if s != "" {
      LowerLength(s[1..]);
    }
  }

  /** The zone with this name among the zones. */
  method FindZone(designator: string, zones: seq<(string, int)>) returns (tzd: int)
    ensures tzd == ZoneOf(designator, zones)
  {
    var i := 0;
    while i < |zones|
      invariant i <= |zones| && ZoneOf(designator, zones) == ZoneOf(designator, zones[i..])
    {
      if zones[i].0 == designator {
        return zones[i].1;
      }
      i := i + 1;
    }
    tzd := 0;
  }

  method TakeDesignator(str: string) returns (designator: string)
    ensures designator == TakeLetters(str, 4) && |designator| <= |str|
  {
    var it := 0;
    designator := "";
    while it < 4 && it < |str| && IsLetter(str[it])
      invariant it <= 4 && it <= |str| && |designator| == it
      invariant designator + TakeLetters(str[it..], 4 - it) == TakeLetters(str, 4)
    {
      designator := designator + [str[it]];
      it := it + 1;
    }
  }

  /** parseTZD */
  method ParseTzd(str: string) returns (tzd: int, rest: string)
    ensures (tzd, rest) == TakeZone(str)
  {
    hide TakeOffset, ZoneOf, TakeLetters, DropBlanks;
    var t := SkipBlanks(str);
    var designator := TakeDesignator(t);
    tzd := FindZone(designator, ZONES);
    var offset;
    offset, rest := ParseOffset(t[|designator|..]);
    tzd := tzd + offset;
  }

  method ParseOffset(str: string) returns (offset: int, rest: string)
    ensures (offset, rest) == TakeOffset(str)
  {
    if str == "" || (str[0] != '+' && str[0] != '-') {
      return 0, str;
    }
    var hours, minutes;
    hours, rest := ParseNumberN(0, str[1..], 2);
    if rest != "" && rest[0] == ':' {
      rest := rest[1..];
    }
    minutes, rest := ParseNumberN(0, rest, 2);
    offset := if str[0] == '+' then hours * 3600 + minutes * 60 else -(hours * 3600 + minutes * 60);
  }

  /** The specifiers that read numbers. */
  method ParseField(c: char, r: Reading) returns (q: Reading)
    ensures q == ReadNumber(c, r)
  {
    hide TakeNumber, TakeAll, DropJunk, TakeFraction, DropDigits;
    q := r;
    var s := SkipJunk(r.rest);
    var n;
    if c == 'd' || c == 'e' || c == 'f' {
      n, s := ParseNumberN(r.day, s, 2);
      q := r.(day := n, rest := s);
    } else if c == 'm' || c == 'n' || c == 'o' {
      n, s := ParseNumberN(r.month, s, 2);
      q := r.(month := n, rest := s);
    } else if c == 'y' {
      n, s := ParseNumberN(r.year, s, 2);
      q := r.(year := FullYear(n), rest := s);
    } else if c == 'Y' {
      n, s := ParseNumberN(r.year, s, 4);
      q := r.(year := n, rest := s);
    } else if c == 'r' {
      n, s := ParseNumber(r.year, s);
      q := r.(year := if n < 1000 then FullYear(n) else n, rest := s);
    } else if c == 'H' || c == 'h' {
      n, s := ParseNumberN(r.hour, s, 2);
      q := r.(hour := n, rest := s);
    } else if c == 'M' {
      n, s := ParseNumberN(r.minute, s, 2);
      q := r.(minute := n, rest := s);
    } else if c == 'S' {
      n, s := ParseNumberN(r.second, s, 2);
      q := r.(second := n, rest := s);
    } else if c == 's' {
      n, s := ParseNumberN(r.second, s, 2);
      q := r.(second := n, rest := s);
      if s != "" && (s[0] == '.' || s[0] == ',') {
        q := ParseFraction(q.(rest := s[1..]));
      }
    } else if c == 'i' {
      n, s := ParseNumberN(r.millis, s, 3);
      q := r.(millis := n, rest := s);
    } else if c == 'c' {
      n, s := ParseNumberN(r.millis, s, 1);
      q := r.(millis := n * 100, rest := s);
    } else if c == 'F' {
      q := ParseFraction(r.(rest := s));
    }
  }

  method ParseFraction(r: Reading) returns (q: Reading)
    ensures q == ReadFraction(r)
  {
    var millis, s := ParseFractionalN(r.millis, r.rest, 3);
    var micros;
    micros, s := ParseFractionalN(r.micros, s, 3);
    s := SkipDigits(s);
    q := r.(millis := millis, micros := micros, rest := s);
  }

  /** parse; None is an exception. */
  method Parse(fmt: string, str: string) returns (result: Option<Parsed>)
    ensures result == ParseAs(fmt, str)
  {
    hide ReadNumber, TakeMonth, TakeAmPm, TakeZone, DropLetters, DropBlanks, Checked;
    var r := Start(str);
    var itf := 0;
    while itf < |fmt| && r.rest != ""
      invariant itf <= |fmt| && Read(fmt, Start(str)) == Read(fmt[itf..], r)
      decreases |fmt| - itf
    {
      assert fmt[itf..][1..] == fmt[itf + 1..];
      if fmt[itf] == '%' {
        itf := itf + 1;
        if itf < |fmt| {
          var c := fmt[itf];
          assert fmt[itf - 1..][2..] == fmt[itf + 1..] && fmt[itf - 1..][1] == c;
          if c == 'w' || c == 'W' {
            var s := SkipBlanks(r.rest);
            var _, t := TakeName(s);
            r := r.(rest := t);
          } else if c == 'b' || c == 'B' {
            var ok, m, s := ParseMonth(r.rest);
            if !ok {
              return None;
            }
            r := r.(month := m, rest := s);
          } else if c == 'a' || c == 'A' {
            var half := TakeAmPm(r.rest, r.hour);
            if half == None {
              return None;
            }
            r := r.(hour := half.value.0, rest := half.value.1);
          } else if c == 'z' || c == 'Z' {
            var z, s := ParseTzd(r.rest);
            r := r.(tzd := z, rest := s);
          } else {
            r := ParseField(c, r);
          }
          itf := itf + 1;
        }
      } else {
        itf := itf + 1;
      }
    }
    result := Checked(r);
  }
}
