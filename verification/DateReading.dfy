/** What each specifier reads, against decimal notation and the names of the months: not only what
    the formatter prints, but fewer digits, any case and abbreviations too.
 */
module DateReading {
  import opened Options
  import opened DateFormats
  import opened DateText
  import opened DateSpec

  // ---------------------------------------------------------------- numbers

  lemma {:induction false} TakeFixed(value: int, n: nat, w: nat, after: string, k: nat)
    requires n < PowerOfTen(w) && w <= k
    ensures TakeNumber(value, Fixed(n, w) + after, k) == TakeNumber(value * PowerOfTen(w) + n, after, k - w)
    ensures TakeAll(value, Fixed(n, w) + after) == TakeAll(value * PowerOfTen(w) + n, after)
    ensures TakeFraction(value, Fixed(n, w) + after, k) == TakeFraction(value * PowerOfTen(w) + n, after, k - w)
    decreases w
  {
    hide TakeNumber, TakeAll, TakeFraction, Digit;
    if w == 0 {
      assert Fixed(n, 0) + after == after && value * 1 == value;
    } else {
      var last := [DIGITS[n % 10]] + after;
      assert Fixed(n, w) + after == Fixed(n / 10, w - 1) + last;
      DigitIs(n % 10);
      TakeFixed(value, n / 10, w - 1, last, k);
      var front := value * PowerOfTen(w - 1) + n / 10;
      TakeDigit(front, n % 10, after, k - w + 1);
      Times(value, PowerOfTen(w - 1), n);
    }
  }

  lemma Times(value: int, p: nat, n: nat)
    ensures (value * p + n / 10) * 10 + n % 10 == value * (10 * p) + n
  {
    assert value * (10 * p) == 10 * (value * p);
  }

  lemma {:induction false} FixedDigits(n: nat, w: nat)
    ensures |Fixed(n, w)| == w && forall i :: 0 <= i < w ==> IsDigit(Fixed(n, w)[i])
  {
    if w > 0 {
      FixedDigits(n / 10, w - 1);
      DigitIs(n % 10);
      DigitBack(n % 10);
    }
  }

  /** The number read behind other characters, with at most k digits. */
  lemma NumberRead(junk: string, n: nat, w: nat, after: string, k: nat)
    requires NoDigits(junk) && 0 < w <= k && n < PowerOfTen(w) && (w == k || !StartsWithDigit(after))
    ensures TakeNumber(0, DropJunk(junk + (Fixed(n, w) + after)), k) == (n, after)
  {
    hide TakeNumber, DropJunk, Fixed;
    FixedDigits(n, w);
    var s := Fixed(n, w) + after;
    assert IsDigit(s[0]);
    JunkDropped(junk, s);
    TakeFixed(0, n, w, after, k);
    TakeNothing(n, after);
  }

  /** The digits a number may have. */
  function MaxDigits(c: char): nat {
    if c == 'Y' then 4 else if c == 'i' then 3 else if c == 'c' then 1 else 2
  }

  /** What the documentation says a number means. */
  function WithField(c: char, n: nat, r: Reading): Reading {
    if c == 'd' || c == 'e' || c == 'f' then r.(day := n)
    else if c == 'm' || c == 'n' || c == 'o' then r.(month := n)
    else if c == 'y' then r.(year := if 69 <= n then 1900 + n else 2000 + n)
    else if c == 'Y' then r.(year := n)
    else if c == 'H' || c == 'h' then r.(hour := n)
    else if c == 'M' then r.(minute := n)
    else if c == 'S' || c == 's' then r.(second := n)
    else if c == 'i' then r.(millis := n)
    else r.(millis := 100 * n)
  }

  predicate IsNumeric(c: char) { c in "defmnoyYHhMSsic" }

  lemma NumericIs(c: char)
    ensures IsNumeric(c) <==>
            || c == 'd' || c == 'e' || c == 'f' || c == 'm' || c == 'n' || c == 'o' || c == 'y' || c == 'Y' || c == 'H'
            || c == 'h' || c == 'M' || c == 'S' || c == 's' || c == 'i' || c == 'c'
  {
  }

  /** A numeric specifier reads its number behind whatever is no digit, with leading zeros or without. */
  lemma SpecifierReads(c: char, junk: string, n: nat, w: nat, after: string)
    requires IsNumeric(c) && NoDigits(junk) && 0 < w <= MaxDigits(c) && n < PowerOfTen(w)
    requires w == MaxDigits(c) || !StartsWithDigit(after)
    requires c == 's' ==> after == "" || (after[0] != '.' && after[0] != ',')
    ensures ReadSpec(c, Start(junk + (Fixed(n, w) + after))) == Some(WithField(c, n, Start(after)))
  {
    hide TakeNumber, DropJunk, Fixed, IsNumeric, TakeMonth, TakeAmPm, TakeZone, DropLetters, DropBlanks, PowerOfTen,
      TakeAll, ReadFraction;
    NumericIs(c);
    NumberRead(junk, n, w, after, MaxDigits(c));
  }

  /** A year of any length: up to 999 it is one of two digits, of the century that ends in 2068. */
  lemma AnyYearRead(junk: string, n: nat, w: nat, after: string)
    requires NoDigits(junk) && 0 < w && n < PowerOfTen(w) && !StartsWithDigit(after)
    ensures ReadSpec('r', Start(junk + (Fixed(n, w) + after))) ==
            Some(Start(after).(year := if n >= 1000 then n else if n >= 69 then 1900 + n else 2000 + n))
  {
    hide TakeAll, DropJunk, Fixed, TakeNumber, TakeMonth, TakeAmPm, TakeZone, TakeFraction;
    FixedDigits(n, w);
    var s := Fixed(n, w) + after;
    assert IsDigit(s[0]);
    JunkDropped(junk, s);
    TakeFixed(0, n, w, after, w);
    TakeNothing(n, after);
  }

  // ---------------------------------------------------------------- fractions of a second

  lemma {:induction false} TakeZeros(value: int, after: string, k: nat)
    requires !StartsWithDigit(after)
    ensures TakeFraction(value, after, k) == (value * PowerOfTen(k), after)
    decreases k
  {
    if k > 0 {
      TakeZeros(value * 10, after, k - 1);
      assert value * PowerOfTen(k) == value * 10 * PowerOfTen(k - 1);
    }
  }

  /** Up to three digits: the missing ones are 0. */
  lemma ThreeRead(n: nat, w: nat, after: string)
    requires w <= 3 && n < PowerOfTen(w) && (w == 3 || !StartsWithDigit(after))
    ensures TakeFraction(0, Fixed(n, w) + after, 3) == (n * PowerOfTen(3 - w), after)
  {
    hide TakeFraction, Fixed, PowerOfTen, StartsWithDigit;
    TakeFixed(0, n, w, after, 3);
    if w == 3 {
      TakeNothing(n, after);
      PowersTo(0);
    } else {
      TakeZeros(n, after, 3 - w);
    }
  }

  lemma {:induction false} FixedJoined(n: nat, a: nat, w: nat, b: nat, k: nat)
    requires b < PowerOfTen(k) && n == a * PowerOfTen(k) + b
    ensures Fixed(n, w + k) == Fixed(a, w) + Fixed(b, k)
    decreases k
  {
    hide PowerOfTen;
    PowerStep(k);
    if k == 0 {
      assert Fixed(b, 0) == "" && Fixed(a, w) + "" == Fixed(a, w);
    } else {
      hide Fixed;
      var p := PowerOfTen(k - 1);
      LastApart(n, a, b, p);
      FixedJoined(n / 10, a, w, b / 10, k - 1);
      FixedMore(n, w + k - 1);
      FixedMore(b, k - 1);
    }
  }

  lemma PowerStep(k: nat)
    ensures if k == 0 then PowerOfTen(k) == 1 else PowerOfTen(k) == 10 * PowerOfTen(k - 1)
  {
  }

  lemma LastApart(n: nat, a: nat, b: nat, p: nat)
    requires n == a * (10 * p) + b && b < 10 * p
    ensures n / 10 == a * p + b / 10 && n % 10 == b % 10 && b / 10 < p
  {
    var q := a * p;
    assert a * (10 * p) == 10 * q;
    assert (10 * q + b) / 10 == q + b / 10;
  }

  lemma SplitThree(n: nat, p: nat) returns (a: nat, b: nat)
    requires p > 0 && n < 1000 * p
    ensures n == a * p + b && a < 1000 && b < p
  {
    a, b := n / p, n % p;
    assert n == p * a + b;
    assert a >= 1000 ==> p * a >= p * 1000;
  }

  /** Up to six digits are read as microseconds, and further ones passed over. */
  lemma FractionRead(n: nat, w: nat, more: string, after: string)
    requires w <= 6 && n < PowerOfTen(w) && !StartsWithDigit(after)
    requires (forall i :: 0 <= i < |more| ==> IsDigit(more[i])) && (more == "" || w == 6)
    ensures var r := ReadFraction(Start(Fixed(n, w) + (more + after)));
            && r.millis * 1000 + r.micros == n * PowerOfTen(6 - w) && 0 <= r.micros < 1000
            && r == Start(after).(millis := r.millis, micros := r.micros)
  {
    hide TakeFraction, Fixed, PowerOfTen, StartsWithDigit, DropDigits;
    DigitsDropped(more, after);
    PowersTo(w);
    var text := Fixed(n, w) + (more + after);
    if w <= 3 {
      assert more + after == after;
      ThreeRead(n, w, after);
      TakeZeros(0, after, 3);
    } else {
      LongFraction(n, w, more, after);
    }
  }

  lemma LongFraction(n: nat, w: nat, more: string, after: string)
    requires 3 < w <= 6 && n < PowerOfTen(w) && !StartsWithDigit(after) && (more == "" || w == 6)
    ensures var m := TakeFraction(0, Fixed(n, w) + (more + after), 3);
            var u := TakeFraction(0, m.1, 3);
            u.1 == more + after && m.0 * 1000 + u.0 == n * PowerOfTen(6 - w) && 0 <= u.0 < 1000
  {
    hide TakeFraction, Fixed, PowerOfTen, StartsWithDigit;
    PowersTo(w);
    var p := PowerOfTen(w - 3);
    var a, b := SplitThree(n, p);
    FixedJoined(n, a, 3, b, w - 3);
    JoinedRest(Fixed(a, 3), Fixed(b, w - 3), more + after);
    ThreeRead(a, 3, Fixed(b, w - 3) + (more + after));
    if w < 6 {
      assert more + after == after;
    }
    ThreeRead(b, w - 3, more + after);
    Scaled(a, b, p, PowerOfTen(6 - w));
  }

  lemma JoinedRest(a: string, b: string, rest: string)
    ensures a + b + rest == a + (b + rest)
  {
  }

  lemma Scaled(a: nat, b: nat, p: nat, r: nat)
    requires p * r == 1000 && b < p
    ensures a * 1000 + b * r == (a * p + b) * r && 0 <= b * r < 1000
  {
    assert (a * p + b) * r == a * (p * r) + b * r;
    assert b * r + r <= p * r by { assert (b + 1) * r <= p * r; }
    assert r == 0 ==> p * r == 0;
  }

  lemma {:induction false} DigitsDropped(more: string, after: string)
    requires (forall i :: 0 <= i < |more| ==> IsDigit(more[i])) && !StartsWithDigit(after)
    ensures DropDigits(more + after) == after
  {
    if more == "" {
      assert more + after == after;
    } else {
      DigitsDropped(more[1..], after);
      assert (more + after)[1..] == more[1..] + after;
    }
  }

  lemma PowersTo(w: nat)
    requires w <= 6
    ensures PowerOfTen(0) == 1 && PowerOfTen(3) == 1000 && PowerOfTen(6) == 1000000
    ensures w <= 3 ==> PowerOfTen(6 - w) == 1000 * PowerOfTen(3 - w)
    ensures 3 < w ==> PowerOfTen(w) == 1000 * PowerOfTen(w - 3) && PowerOfTen(w - 3) * PowerOfTen(6 - w) == 1000
  {
    assert PowerOfTen(1) == 10 && PowerOfTen(2) == 100 && PowerOfTen(4) == 10000 && PowerOfTen(5) == 100000;
  }

  // ---------------------------------------------------------------- the names of the months

  /** The same letter, in either case. */
  predicate SameLetter(c: char, t: char) {
    || c == t
    || ('A' <= c <= 'Z' && t as int == c as int + 32)
    || ('a' <= c <= 'z' && t as int == c as int - 32)
  }

  /** At least three letters of the name of a month, in any case. */
  predicate Abbreviates(name: string, m: int)
    requires 1 <= m <= 12
  {
    3 <= |name| <= |MONTHS[m - 1]| && forall i :: 0 <= i < |name| ==> SameLetter(name[i], MONTHS[m - 1][i])
  }

  function Capitalised(name: string): string
    requires name != ""
  {
    [ToUpper(name[0])] + LowerAll(name[1..])
  }

  lemma {:induction false} LoweredAt(s: string, i: nat)
    requires i < |s|
    ensures |LowerAll(s)| == |s| && LowerAll(s)[i] == ToLower(s[i])
  {
    if i > 0 {
      LoweredAt(s[1..], i - 1);
    } else if |s| > 1 {
      LoweredAt(s[1..], 0);
    }
  }

  lemma CapitalisedAt(name: string, i: nat)
    requires i < |name|
    ensures |Capitalised(name)| == |name|
    ensures Capitalised(name)[i] == if i == 0 then ToUpper(name[0]) else ToLower(name[i])
  {
    if |name| > 1 {
      LoweredAt(name[1..], if i > 0 then i - 1 else 0);
    }
  }

  /** A word of letters abbreviates a month exactly if, capitalised, its name begins with it. */
  lemma AbbreviatesIs(name: string, m: int)
    requires 1 <= m <= 12 && |name| >= 3 && AllLetters(name)
    ensures Abbreviates(name, m) <==> Capitalised(name) <= MonthName(m)
  {
    hide LowerAll, Capitalised;
    NamesAre(0, m);
    var c, t := Capitalised(name), MonthName(m);
    assert IsName(t) by {
      if m <= 6 { FirstHalf(m); } else { SecondHalf(m); }
    }
    hide MonthName, MONTHS;
    CapitalisedAt(name, 0);
    forall i | 0 <= i < |name| && i < |t| ensures SameLetter(name[i], t[i]) <==> c[i] == t[i] {
      CapitalisedAt(name, i);
    }
    if Abbreviates(name, m) {
      assert c == t[..|name|];
    }
  }

  lemma {:induction false} MonthOfIs(name: string, from: int)
    requires 1 <= from <= 13
    ensures match MonthOf(name, from)
            case Some(m) => from <= m <= 12 && name <= MonthName(m)
            case None => forall m :: from <= m <= 12 ==> !(name <= MonthName(m))
    decreases 13 - from
  {
    hide MonthName;
    if from < 13 {
      MonthOfIs(name, from + 1);
    }
  }

  /** No word abbreviates two months. */
  lemma OneMonth(name: string, m: int, n: int)
    requires 1 <= m <= 12 && 1 <= n <= 12 && |name| >= 3 && name <= MonthName(m) && name <= MonthName(n)
    ensures m == n
  {
    assert ShortMonth(m) == name[..3] && MonthName(n)[..3] == name[..3];
    MonthsDiffer(m, n);
  }

  /** A word is read as a month exactly if it abbreviates one, and then as that one. */
  lemma MonthWordRead(skip: string, name: string, after: string)
    requires AllSkipped(skip) && name != "" && AllLetters(name) && !StartsWithLetter(after)
    ensures TakeMonth(skip + (name + after)).None? <==> forall m :: 1 <= m <= 12 ==> !Abbreviates(name, m)
    ensures forall m :: 1 <= m <= 12 && Abbreviates(name, m) ==> TakeMonth(skip + (name + after)) == Some((m, after))
  {
    hide MonthOf, MonthName, DropBlanksAndMarks, Letters, DropLetters, IsLetter, IsBlank, IsMark, LowerAll, ToUpper,
      MONTHS, SameLetter;
    LetterIsNoMark(name[0]);
    MarksDropped(skip, name + after);
    WordRead(name, after);
    if |name| >= 3 {
      MonthOfIs(Capitalised(name), 1);
      CapitalisedAt(name, 0);
      forall m | 1 <= m <= 12 ensures Abbreviates(name, m) <==> Capitalised(name) <= MonthName(m) {
        AbbreviatesIs(name, m);
      }
      forall m, n | 1 <= m <= 12 && 1 <= n <= 12 && Abbreviates(name, m) && Abbreviates(name, n) ensures m == n {
        OneMonth(Capitalised(name), m, n);
      }
    }
  }
}
