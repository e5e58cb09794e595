/** The streaming hexadecimal codec. The decoder keeps a lone digit at the end of a piece
    for the next one.
 */
module Hex {
  import opened Options
  import opened Sequences
  import opened TextLines

  type Nybble = n: int | 0 <= n < 16

  // ---------------------------------------------------------------- digits

  function HexDigit(n: Nybble, uppercase: bool): char {
    if n < 10 then ('0' as int + n) as char
    else if uppercase then ('A' as int + n - 10) as char
    else ('a' as int + n - 10) as char
  }

  /** nybble; None is the exception */
  function NybbleOf(c: char): Option<Nybble> {
    if '0' <= c <= '9' then Some(c as int - '0' as int)
    else if 'A' <= c <= 'F' then Some(c as int - 'A' as int + 10)
    else if 'a' <= c <= 'f' then Some(c as int - 'a' as int + 10)
    else None
  }

  /** iswspace */
  predicate IsSpace(c: char) { c == ' ' || c == '\r' || c == '\t' || c == '\n' }

  lemma DigitRoundTrip(n: Nybble, uppercase: bool)
    ensures NybbleOf(HexDigit(n, uppercase)) == Some(n) && !IsSpace(HexDigit(n, uppercase))
  {
  }

  // ---------------------------------------------------------------- encoding

  function Pair(b: Octet, uppercase: bool): string { [HexDigit(b / 16, uppercase), HexDigit(b % 16, uppercase)] }

  function Pairs(data: seq<Octet>, uppercase: bool): string {
    if data == [] then "" else Pairs(data[..|data| - 1], uppercase) + Pair(data[|data| - 1], uppercase)
  }

  /** Characters in a line: pairs are not split. */
  function Width(lineLength: int): nat { if lineLength > 0 then (lineLength + 1) / 2 * 2 else 0 }

  /** The digits of a byte, and a line feed if they fill the line. */
  function EncodeByte(linePos: int, lineLength: int, uppercase: bool, b: Octet): (int, string) {
    if lineLength > 0 then
      if linePos + 2 >= lineLength then (0, Pair(b, uppercase) + "\n") else (linePos + 2, Pair(b, uppercase))
    else (linePos, Pair(b, uppercase))
  }

  function EncodeAll(linePos: int, lineLength: int, uppercase: bool, data: seq<Octet>): (int, string) {
    if data == [] then (linePos, "")
    else
      var r := EncodeAll(linePos, lineLength, uppercase, data[..|data| - 1]);
      var e := EncodeByte(r.0, lineLength, uppercase, data[|data| - 1]);
      (e.0, r.1 + e.1)
  }

  lemma EncodeSnoc(linePos: int, lineLength: int, uppercase: bool, data: seq<Octet>, k: nat)
    requires k < |data|
    ensures var r := EncodeAll(linePos, lineLength, uppercase, data[..k]);
            var e := EncodeByte(r.0, lineLength, uppercase, data[k]);
            EncodeAll(linePos, lineLength, uppercase, data[..k + 1]) == (e.0, r.1 + e.1)
  {
    assert data[..k + 1][..k] == data[..k];
  }

  /** Encoding in two calls is encoding in one. */
  lemma {:induction false} EncodeConcat(linePos: int, lineLength: int, uppercase: bool, a: seq<Octet>, b: seq<Octet>)
    ensures var r := EncodeAll(linePos, lineLength, uppercase, a);
            var q := EncodeAll(r.0, lineLength, uppercase, b);
            EncodeAll(linePos, lineLength, uppercase, a + b) == (q.0, r.1 + q.1)
  {
    hide EncodeByte;
    var r := EncodeAll(linePos, lineLength, uppercase, a);
    if b == [] {
      assert a + b == a && r.1 + "" == r.1;
    } else {
      var n := |b| - 1;
      EncodeConcat(linePos, lineLength, uppercase, a, b[..n]);
      var c := a + b;
      assert c[..|a| + n] == a + b[..n] && c[|a| + n] == b[n];
      var q := EncodeAll(r.0, lineLength, uppercase, b[..n]);
      var e := EncodeByte(q.0, lineLength, uppercase, b[n]);
      assert r.1 + q.1 + e.1 == r.1 + (q.1 + e.1);
    }
  }

  /** From the start of a line the text is the digits of the bytes in lines of whole pairs. */
  lemma {:induction false} EncodeIsWrapped(lineLength: int, uppercase: bool, data: seq<Octet>)
    ensures var r := EncodeAll(0, lineLength, uppercase, data);
            && r.1 == Wrap(Pairs(data, uppercase), Width(lineLength))
            && (lineLength > 0 ==> r.0 == LastLine(2 * |data|, Width(lineLength)))
  {
    hide Wrap, LastLine, Pair;
    if data == [] {
      NothingWrapped(Width(lineLength));
    } else {
      var n := |data| - 1;
      EncodeIsWrapped(lineLength, uppercase, data[..n]);
      PairsMore(data[..n], data[n], uppercase, lineLength);
    }
  }

  /** One more pair, and a line feed if it fills the line. */
  lemma PairsMore(before: seq<Octet>, c: Octet, uppercase: bool, lineLength: int)
    ensures var w := Width(lineLength);
            var pos := LastLine(2 * |before|, w);
            var full := lineLength > 0 && pos + 2 >= lineLength;
            && Wrap(Pairs(before, uppercase) + Pair(c, uppercase), w) ==
                 Wrap(Pairs(before, uppercase), w) + Pair(c, uppercase) + (if full then "\n" else "")
            && (lineLength > 0 ==> LastLine(2 * |before| + 2, w) == if full then 0 else pos + 2)
  {
    hide Wrap, LastLine, HexDigit, Pairs;
    var w := Width(lineLength);
    var text := Pairs(before, uppercase);
    PairsLength(before, uppercase);
    if lineLength > 0 {
      LastLineOfPairs(2 * |before|, w);
      WidthIsFull(LastLine(2 * |before|, w), lineLength);
      hide Width;
      WrapMore(text, w, Pair(c, uppercase));
      LastLineMore(2 * |before|, w, 2);
    } else {
      NoWrap(text);
      NoWrap(text + Pair(c, uppercase));
    }
  }

  lemma WidthIsFull(pos: nat, lineLength: int)
    requires lineLength > 0 && pos % 2 == 0 && pos + 2 <= Width(lineLength)
    ensures pos + 2 >= lineLength <==> pos + 2 == Width(lineLength)
  {
  }

  lemma {:induction false} PairsLength(data: seq<Octet>, uppercase: bool)
    ensures |Pairs(data, uppercase)| == 2 * |data|
  {
    if data != [] {
      PairsLength(data[..|data| - 1], uppercase);
    }
  }

  const LOWER_DIGITS := "0123456789abcdef"
  const UPPER_DIGITS := "0123456789ABCDEF"

  function Digits(uppercase: bool): string { if uppercase then UPPER_DIGITS else LOWER_DIGITS }

  lemma DigitIs(n: Nybble, uppercase: bool)
    ensures HexDigit(n, uppercase) == Digits(uppercase)[n]
  {
  }

  function NoFeeds(s: string): string {
    if s == "" then "" else NoFeeds(s[..|s| - 1]) + if s[|s| - 1] == '\n' then "" else [s[|s| - 1]]
  }

  /** The digits of each byte stand in order, the high one first. */
  predicate IsDigits(s: string, data: seq<Octet>, uppercase: bool) {
    && |s| == 2 * |data|
    && forall i :: 0 <= i < |data| ==>
         s[2 * i] == Digits(uppercase)[data[i] / 16] && s[2 * i + 1] == Digits(uppercase)[data[i] % 16]
  }

  /** Without its line feeds the text is the digits of the bytes in the case asked for, wherever in
      a line it begins. */
  lemma {:induction false} EncodedDigits(linePos: int, lineLength: int, uppercase: bool, data: seq<Octet>)
    ensures IsDigits(NoFeeds(EncodeAll(linePos, lineLength, uppercase, data).1), data, uppercase)
  {
    hide HexDigit, NoFeeds, Digits;
    if data == [] {
      NothingFed();
    } else {
      var n := |data| - 1;
      EncodedDigits(linePos, lineLength, uppercase, data[..n]);
      var r := EncodeAll(linePos, lineLength, uppercase, data[..n]);
      PairFed(r.1, data[n], uppercase);
      DigitIs(data[n] / 16, uppercase);
      DigitIs(data[n] % 16, uppercase);
    }
  }

  lemma NothingFed()
    ensures NoFeeds("") == ""
  {
  }

  lemma NoFeedsMore(s: string, c: char)
    ensures NoFeeds(s + [c]) == NoFeeds(s) + if c == '\n' then "" else [c]
  {
    assert (s + [c])[..|s|] == s;
  }

  lemma PairFed(s: string, b: Octet, uppercase: bool)
    ensures NoFeeds(s + Pair(b, uppercase)) == NoFeeds(s) + Pair(b, uppercase)
    ensures NoFeeds(s + (Pair(b, uppercase) + "\n")) == NoFeeds(s) + Pair(b, uppercase)
  {
    hide NoFeeds, NybbleOf;
    var (x, y) := (HexDigit(b / 16, uppercase), HexDigit(b % 16, uppercase));
    NoFeedsMore(s, x);
    NoFeedsMore(s + [x], y);
    NoFeedsMore(s + [x] + [y], '\n');
    assert s + Pair(b, uppercase) == s + [x] + [y];
    assert s + (Pair(b, uppercase) + "\n") == s + [x] + [y] + ['\n'];
    assert NoFeeds(s) + Pair(b, uppercase) == NoFeeds(s) + [x] + [y] + "";
  }

  /** From the start of a line: two digits a byte, and a line feed behind each line of as many
      bytes as it takes to reach the line length. */
  lemma EncodedSize(lineLength: int, uppercase: bool, data: seq<Octet>)
    ensures var n := |data|;
            |EncodeAll(0, lineLength, uppercase, data).1| ==
            2 * n + if lineLength > 0 then n / ((lineLength + 1) / 2) else 0
  {
    hide Wrap, HexDigit, EncodeAll;
    var w := Width(lineLength);
    EncodeIsWrapped(lineLength, uppercase, data);
    PairsLength(data, uppercase);
    if lineLength > 0 {
      PairsHaveNoFeed(data, uppercase);
      WrapLayout(Pairs(data, uppercase), w);
      Halves(|data|, (lineLength + 1) / 2);
    } else {
      NoWrap(Pairs(data, uppercase));
    }
  }

  lemma Halves(n: nat, d: nat)
    requires d > 0
    ensures 2 * n / (d * 2) == n / d
  {
    var q, r := n / d, n % d;
    assert 2 * n == q * (d * 2) + 2 * r;
    QuotientOf(2 * n, d * 2, q, 2 * r);
  }

  lemma {:induction false} PairsHaveNoFeed(data: seq<Octet>, uppercase: bool)
    ensures NoLineFeed(Pairs(data, uppercase))
  {
    hide HexDigit;
    if data != [] {
      var n := |data| - 1;
      PairsHaveNoFeed(data[..n], uppercase);
      DigitRoundTrip(data[n] / 16, uppercase);
      DigitRoundTrip(data[n] % 16, uppercase);
    }
  }

  /** The original keeps the offset of the digits it uses instead of a flag. */
  class Encoder {
    var linePos: int
    var lineLength: int
    var uppercase: bool

    constructor ()
      ensures linePos == 0 && lineLength == 72 && !uppercase
    {
      linePos, lineLength, uppercase := 0, 72, false;
    }

    method SetUppercase(flag: bool)
      modifies this`uppercase
      ensures uppercase == flag
    {
      uppercase := flag;
    }

    method SetLineLength(length: int)
      modifies this`lineLength
      ensures lineLength == length
    {
      lineLength := length;
    }

    method Encode(inbuf: seq<Octet>, outbuf: array<char>) returns (nwrite: nat)
      requires 3 * |inbuf| <= outbuf.Length
      modifies this`linePos, outbuf
      ensures nwrite <= outbuf.Length
      ensures (linePos, outbuf[..nwrite]) == EncodeAll(old(linePos), lineLength, uppercase, inbuf)
      ensures outbuf[nwrite..] == old(outbuf[nwrite..])
    {
      hide EncodeAll, EncodeByte;
      ghost var start := linePos;
      nwrite := 0;
      var i := 0;
      EncodeNothing(start, lineLength, uppercase);
      while i < |inbuf|
        invariant i <= |inbuf| && nwrite <= 3 * i
        invariant (linePos, outbuf[..nwrite]) == EncodeAll(start, lineLength, uppercase, inbuf[..i])
        invariant outbuf[nwrite..] == old(outbuf[nwrite..])
      {
        EncodeSnoc(start, lineLength, uppercase, inbuf, i);
        nwrite := EncodeOne(inbuf[i], outbuf, nwrite);
        i := i + 1;
      }
      assert inbuf[..i] == inbuf;
    }

    /** One byte: the body of the loop. */
    method EncodeOne(c: Octet, outbuf: array<char>, at: nat) returns (nwrite: nat)
      requires at + 3 <= outbuf.Length
      modifies this`linePos, outbuf
      ensures at + 2 <= nwrite <= at + 3
      ensures var e := EncodeByte(old(linePos), lineLength, uppercase, c);
              linePos == e.0 && outbuf[..nwrite] == old(outbuf[..at]) + e.1
      ensures outbuf[nwrite..] == old(outbuf[nwrite..])
    {
      hide HexDigit;
      nwrite := at;
      outbuf[nwrite] := HexDigit(c / 16, uppercase);
      nwrite := nwrite + 1;
      outbuf[nwrite] := HexDigit(c % 16, uppercase);
      nwrite := nwrite + 1;
      if lineLength > 0 {
        linePos := linePos + 2;
        if linePos >= lineLength {
          linePos := 0;
          outbuf[nwrite] := '\n';
          nwrite := nwrite + 1;
        }
      }
    }
  }

  lemma EncodeNothing(linePos: int, lineLength: int, uppercase: bool)
    ensures EncodeAll(linePos, lineLength, uppercase, []) == (linePos, "")
  {
  }

  // ---------------------------------------------------------------- decoding

  /** What follows leading white space. */
  function Skipped(s: string): (t: string)
    ensures |t| <= |s|
  {
    if s != "" && IsSpace(s[0]) then Skipped(s[1..]) else s
  }

  datatype Decoded = Decoded(last: Option<char>, bytes: seq<Octet>)

  /** What one call of decode does with a piece, given the digit the last call kept; None is
      the exception. White space is passed over in front of a digit, but the second digit
      of a pair must come before the piece ends. */
  function DecodePiece(last: Option<char>, s: string): Option<Decoded>
    decreases |s|, 1
  {
    if last.Some? then
      if s == "" then Some(Decoded(last, [])) else SecondDigit(last.value, s)
    else
      var t := Skipped(s);
      if t == "" then Some(Decoded(None, []))
      else if |t| == 1 then Some(Decoded(Kept(t[0]), []))
      else SecondDigit(t[0], t[1..])
  }

  /** The byte 0 stands for no digit. */
  function Kept(c: char): Option<char> { if c == '\0' then None else Some(c) }

  function SecondDigit(first: char, s: string): Option<Decoded>
    requires s != ""
    decreases |s|, 0
  {
    var u := Skipped(s);
    if u == "" || NybbleOf(first).None? || NybbleOf(u[0]).None? then None
    else
      match DecodePiece(None, u[1..])
      case None => None
      case Some(d) => Some(Decoded(d.last, [NybbleOf(first).value * 16 + NybbleOf(u[0]).value] + d.bytes))
  }

  /** Digits in pairs, with white space between pairs only: what to expect of a piece whatever
      the cuts. None where the text is anything else. */
  function DecodePairs(last: Option<char>, s: string): Option<Decoded>
    requires last.Some? ==> NybbleOf(last.value).Some?
    decreases |s|
  {
    if s == "" then Some(Decoded(last, []))
    else if NybbleOf(s[0]).None? then
      if IsSpace(s[0]) && last.None? then DecodePairs(None, s[1..]) else None
    else if last.None? then DecodePairs(Some(s[0]), s[1..])
    else
      match DecodePairs(None, s[1..])
      case None => None
      case Some(d) => Some(Decoded(d.last, [NybbleOf(last.value).value * 16 + NybbleOf(s[0]).value] + d.bytes))
  }

  lemma {:induction false} PairsKeepDigit(last: Option<char>, s: string)
    requires last.Some? ==> NybbleOf(last.value).Some?
    ensures var d := DecodePairs(last, s);
            d.Some? && d.value.last.Some? ==> NybbleOf(d.value.last.value).Some?
    decreases |s|
  {
    if s == "" {
    } else if NybbleOf(s[0]).None? {
      if IsSpace(s[0]) && last.None? {
        PairsKeepDigit(None, s[1..]);
      }
    } else if last.None? {
      PairsKeepDigit(Some(s[0]), s[1..]);
    } else {
      PairsKeepDigit(None, s[1..]);
    }
  }

  /** On such text a call does what is expected. */
  lemma {:induction false} PieceIsPairs(last: Option<char>, s: string)
    requires last.Some? ==> NybbleOf(last.value).Some?
    requires DecodePairs(last, s).Some?
    ensures DecodePiece(last, s) == DecodePairs(last, s)
    decreases |s|
  {
    if s == "" {
    } else if last.Some? {
      PieceIsPairs(None, s[1..]);
    } else if IsSpace(s[0]) {
      PieceIsPairs(None, s[1..]);
    } else if |s| > 1 {
      assert NybbleOf(s[1]).Some?;
      PieceIsPairs(None, s[2..]);
      assert s[1..][1..] == s[2..];
    }
  }

  /** Such text may be cut anywhere. */
  lemma {:induction false} PairsConcat(last: Option<char>, a: string, b: string)
    requires last.Some? ==> NybbleOf(last.value).Some?
    requires DecodePairs(last, a + b).Some?
    ensures DecodePairs(last, a).Some?
    ensures var d := DecodePairs(last, a).value;
            && (d.last.Some? ==> NybbleOf(d.last.value).Some?)
            && DecodePairs(d.last, b).Some?
            && DecodePairs(last, a + b) == Some(Decoded(DecodePairs(d.last, b).value.last,
                d.bytes + DecodePairs(d.last, b).value.bytes))
    decreases |a|
  {
    if a == "" {
      assert a + b == b;
      assert [] + DecodePairs(last, b).value.bytes == DecodePairs(last, b).value.bytes;
    } else {
      assert (a + b)[1..] == a[1..] + b;
      if NybbleOf(a[0]).None? {
        PairsConcat(None, a[1..], b);
      } else if last.None? {
        PairsConcat(Some(a[0]), a[1..], b);
      } else {
        PairsConcat(None, a[1..], b);
        var x := [NybbleOf(last.value).value * 16 + NybbleOf(a[0]).value];
        var d := DecodePairs(None, a[1..]).value;
        var e := DecodePairs(d.last, b).value;
        assert x + (d.bytes + e.bytes) == x + d.bytes + e.bytes;
      }
    }
  }

  // ---------------------------------------------------------------- streams

  /** Several calls of decode, one piece each. */
  function DecodePieces(last: Option<char>, pieces: seq<string>): Option<Decoded>
    decreases |pieces|
  {
    if pieces == [] then Some(Decoded(last, []))
    else
      match DecodePiece(last, pieces[0])
      case None => None
      case Some(d) =>
        match DecodePieces(d.last, pieces[1..])
        case None => None
        case Some(e) => Some(Decoded(e.last, d.bytes + e.bytes))
  }

  lemma {:induction false} PiecesArePairs(last: Option<char>, pieces: seq<string>)
    requires last.Some? ==> NybbleOf(last.value).Some?
    requires DecodePairs(last, Flatten(pieces)).Some?
    ensures DecodePieces(last, pieces) == DecodePairs(last, Flatten(pieces))
    decreases |pieces|
  {
    hide DecodePairs, DecodePiece;
    if pieces == [] {
      NoPairs(last);
    } else {
      PairsConcat(last, pieces[0], Flatten(pieces[1..]));
      PieceIsPairs(last, pieces[0]);
      PiecesArePairs(DecodePairs(last, pieces[0]).value.last, pieces[1..]);
    }
  }

  lemma NoPairs(last: Option<char>)
    requires last.Some? ==> NybbleOf(last.value).Some?
    ensures DecodePairs(last, "") == Some(Decoded(last, []))
  {
  }

  /** Encoded text, with or without its line feeds, is the pairs of its bytes. */
  lemma {:induction false} EncodedPairs(linePos: int, lineLength: int, uppercase: bool, data: seq<Octet>, after: string)
    requires DecodePairs(None, after).Some?
    ensures DecodePairs(None, EncodeAll(linePos, lineLength, uppercase, data).1 + after) ==
              Some(Decoded(DecodePairs(None, after).value.last, data + DecodePairs(None, after).value.bytes))
    decreases |data|
  {
    hide DecodePairs, EncodeByte;
    var text := EncodeAll(linePos, lineLength, uppercase, data).1;
    if data == [] {
      assert text + after == after;
      assert data + DecodePairs(None, after).value.bytes == DecodePairs(None, after).value.bytes;
    } else {
      var n := |data| - 1;
      var r := EncodeAll(linePos, lineLength, uppercase, data[..n]);
      var e := EncodeByte(r.0, lineLength, uppercase, data[n]).1;
      EncodedByte(r.0, lineLength, uppercase, data[n], after);
      EncodedPairs(linePos, lineLength, uppercase, data[..n], e + after);
      assert text + after == r.1 + (e + after);
      assert data[..n] + ([data[n]] + DecodePairs(None, after).value.bytes)
             == data + DecodePairs(None, after).value.bytes;
    }
  }

  lemma EncodedByte(linePos: int, lineLength: int, uppercase: bool, b: Octet, after: string)
    requires DecodePairs(None, after).Some?
    ensures DecodePairs(None, EncodeByte(linePos, lineLength, uppercase, b).1 + after) ==
              Some(Decoded(DecodePairs(None, after).value.last, [b] + DecodePairs(None, after).value.bytes))
  {
    hide HexDigit, NybbleOf, IsSpace, DecodePairs;
    var e := EncodeByte(linePos, lineLength, uppercase, b).1;
    DigitRoundTrip(b / 16, uppercase);
    DigitRoundTrip(b % 16, uppercase);
    LineFeedIsSpace();
    var rest := e[2..] + after;
    if |e| == 3 {
      assert rest[1..] == after;
      PassOver(rest);
    } else {
      assert rest == after;
    }
    assert e + after == [e[0], e[1]] + rest;
    TakePair(e[0], e[1], rest);
  }

  lemma PassOver(s: string)
    requires s != "" && IsSpace(s[0])
    ensures DecodePairs(None, s) == DecodePairs(None, s[1..])
  {
  }

  lemma TakePair(x: char, y: char, after: string)
    requires NybbleOf(x).Some? && NybbleOf(y).Some? && DecodePairs(None, after).Some?
    ensures DecodePairs(None, [x, y] + after) ==
              Some(Decoded(DecodePairs(None, after).value.last,
                           [NybbleOf(x).value * 16 + NybbleOf(y).value] + DecodePairs(None, after).value.bytes))
  {
    hide NybbleOf;
    var s := [x, y] + after;
    assert s[1..] == [y] + after && s[1..][1..] == after;
    assert DecodePairs(Some(x), s[1..]).Some?;
  }

  lemma LineFeedIsSpace()
    ensures IsSpace('\n') && NybbleOf('\n').None?
  {
  }

  /** Several calls of encode. */
  function EncodePieces(linePos: int, lineLength: int, uppercase: bool, pieces: seq<seq<Octet>>): (int, string) {
    if pieces == [] then (linePos, "")
    else
      var r := EncodePieces(linePos, lineLength, uppercase, pieces[..|pieces| - 1]);
      var e := EncodeAll(r.0, lineLength, uppercase, pieces[|pieces| - 1]);
      (e.0, r.1 + e.1)
  }

  lemma {:induction false} EncodeCuts(linePos: int, lineLength: int, uppercase: bool, pieces: seq<seq<Octet>>)
    ensures EncodePieces(linePos, lineLength, uppercase, pieces)
            == EncodeAll(linePos, lineLength, uppercase, Flatten(pieces))
  {
    if pieces != [] {
      var n := |pieces| - 1;
      EncodeCuts(linePos, lineLength, uppercase, pieces[..n]);
      FlattenLast(pieces);
      EncodeConcat(linePos, lineLength, uppercase, Flatten(pieces[..n]), pieces[n]);
    }
  }

  /** Any bytes, encoded in any pieces, come back from the encoded text decoded in any pieces:
      no exception, and no digit is left over. */
  lemma StreamingRoundTrip(linePos: int, lineLength: int, uppercase: bool, plain: seq<seq<Octet>>, code: seq<string>)
    requires Flatten(code) == EncodePieces(linePos, lineLength, uppercase, plain).1
    ensures DecodePieces(None, code) == Some(Decoded(None, Flatten(plain)))
  {
    hide DecodePairs, EncodeAll;
    var data := Flatten(plain);
    EncodeCuts(linePos, lineLength, uppercase, plain);
    NoPairs(None);
    EncodedPairs(linePos, lineLength, uppercase, data, "");
    var text := EncodeAll(linePos, lineLength, uppercase, data).1;
    assert text + "" == text && data + [] == data;
    PiecesArePairs(None, code);
  }

  // ---------------------------------------------------------------- where a text may be cut

  /** White space right behind the first digit of a pair; `inPair` tells whether the text
      begins behind one. */
  predicate SpaceInPair(inPair: bool, s: string)
    decreases |s|
  {
    if s == "" then false
    else if IsSpace(s[0]) then inPair || SpaceInPair(false, s[1..])
    else SpaceInPair(!inPair, s[1..])
  }

  /** The text without its white space. */
  function NoWhite(s: string): string {
    if s == "" then "" else (if s[0] in " \t\r\n" then "" else [s[0]]) + NoWhite(s[1..])
  }

  /** A character is a digit exactly if it is among those of either case, and then its value is its
      place. */
  lemma NybbleIs(c: char)
    ensures NybbleOf(c).Some? <==> c in LOWER_DIGITS || c in UPPER_DIGITS
    ensures NybbleOf(c).Some? ==> LOWER_DIGITS[NybbleOf(c).value] == c || UPPER_DIGITS[NybbleOf(c).value] == c
  {
    if n: Nybble :| NybbleOf(c) == Some(n) {
      DigitIs(n, false);
      DigitIs(n, true);
    }
  }

  predicate AllDigits(s: string) { forall i :: 0 <= i < |s| ==> s[i] in LOWER_DIGITS || s[i] in UPPER_DIGITS }

  /** Between pairs white space is nothing, and what remains is accepted exactly if it is digits. */
  lemma {:induction false} WhiteIsNothing(last: Option<char>, s: string)
    requires (last.Some? ==> NybbleOf(last.value).Some?) && !SpaceInPair(last.Some?, s)
    ensures DecodePairs(last, s) == DecodePairs(last, NoWhite(s))
    ensures DecodePairs(last, s).Some? <==> AllDigits(NoWhite(s))
    decreases |s|
  {
    hide AllDigits, NybbleOf, IsSpace;
    DigitsMore("", "");
    if s != "" {
      WhiteIs(s[0]);
      DigitsMore([s[0]], NoWhite(s[1..]));
      if IsSpace(s[0]) {
        assert NoWhite(s) == NoWhite(s[1..]);
        WhiteIsNothing(None, s[1..]);
      } else {
        assert NoWhite(s) == [s[0]] + NoWhite(s[1..]) && NoWhite(s)[1..] == NoWhite(s[1..]);
        if NybbleOf(s[0]).Some? {
          WhiteIsNothing(if last.None? then Some(s[0]) else None, s[1..]);
        }
      }
    }
  }

  lemma WhiteIs(c: char)
    ensures c in " \t\r\n" <==> IsSpace(c)
    ensures IsSpace(c) ==> NybbleOf(c).None?
    ensures AllDigits([c]) <==> NybbleOf(c).Some?
  {
    hide LOWER_DIGITS, UPPER_DIGITS;
    NybbleIs(c);
    assert [c][0] == c;
  }

  lemma DigitsMore(a: string, b: string)
    ensures AllDigits("") && (AllDigits(a + b) <==> AllDigits(a) && AllDigits(b))
  {
    hide LOWER_DIGITS, UPPER_DIGITS;
    var s := a + b;
    assert (forall i :: 0 <= i < |a| ==> s[i] == a[i]) && forall i :: 0 <= i < |b| ==> s[|a| + i] == b[i];
  }

  /** However the text is cut, the result is that of one call. */
  ghost predicate CutAnywhere(last: Option<char>, s: string) {
    forall pieces: seq<string> :: Flatten(pieces) == s ==> DecodePieces(last, pieces) == DecodePiece(last, s)
  }

  /** A text that one call accepts may be cut anywhere exactly if no white space stands right
      behind the first digit of a pair. */
  lemma CutIndependence(last: Option<char>, s: string)
    requires DecodePiece(last, s).Some?
    ensures CutAnywhere(last, s) <==> !SpaceInPair(last.Some?, s)
  {
    hide DecodePiece, DecodePieces, SpaceInPair;
    if SpaceInPair(last.Some?, s) {
      var k := BadCut(last, s);
      var pieces := [s[..k], s[k..]];
      TwoPieces(last, s[..k], s[k..]);
      assert s[..k] + s[k..] == s;
      assert Flatten(pieces) == s;
    } else {
      forall pieces | Flatten(pieces) == s ensures DecodePieces(last, pieces) == DecodePiece(last, s) {
        TightPieces(last, pieces);
      }
    }
  }

  lemma TwoPieces(last: Option<char>, a: string, b: string)
    ensures Flatten([a, b]) == a + b
    ensures DecodePieces(last, [a, b]) ==
            match DecodePiece(last, a)
            case None => None
            case Some(d) => Behind(d.bytes, DecodePiece(d.last, b))
  {
    hide DecodePiece;
    assert [a, b][1..] == [b] && [b][1..] == [];
    assert b + "" == b;
    assert Flatten([b]) == b;
    var d := DecodePiece(last, a);
    if d.Some? {
      assert DecodePieces(d.value.last, [b]) == DecodePiece(d.value.last, b) by { OnePiece(d.value.last, b); }
    }
  }

  lemma OnePiece(last: Option<char>, b: string)
    ensures DecodePieces(last, [b]) == DecodePiece(last, b)
  {
    hide DecodePiece;
    assert [b][1..] == [];
    var d := DecodePiece(last, b);
    if d.Some? {
      assert d.value.bytes + [] == d.value.bytes;
    }
  }

  /** One call passes over white space in front of a pair. */
  lemma SpaceInFront(s: string)
    requires s != "" && IsSpace(s[0])
    ensures DecodePiece(None, s) == DecodePiece(None, s[1..])
  {
  }

  /** One call takes a pair. */
  lemma PairInFront(last: Option<char>, s: string)
    requires s != "" && (last == None ==> |s| > 1 && !IsSpace(s[0]))
    requires !IsSpace(s[if last.Some? then 0 else 1])
    ensures var first := if last.Some? then last.value else s[0];
            var second := s[if last.Some? then 0 else 1];
            DecodePiece(last, s) ==
            if NybbleOf(first).None? || NybbleOf(second).None? then None
            else Behind([NybbleOf(first).value * 16 + NybbleOf(second).value],
                        DecodePiece(None, s[if last.Some? then 1 else 2..]))
  {
    hide NybbleOf;
    if last == None {
      assert Skipped(s[1..]) == s[1..] && s[1..][1..] == s[2..];
    }
  }

  /** White space in a pair is an exception at the end of a piece. */
  lemma {:induction false} BadCut(last: Option<char>, s: string) returns (k: nat)
    requires SpaceInPair(last.Some?, s) && DecodePiece(last, s).Some?
    ensures k <= |s| && DecodePiece(last, s[..k]) == None
    decreases |s|
  {
    hide DecodePiece, NybbleOf, IsSpace;
    var at := if last.Some? then 0 else 1;
    if last == None && IsSpace(s[0]) {
      SpaceInFront(s);
      k := BadCut(None, s[1..]);
      k := k + 1;
      SpaceInFront(s[..k]);
      assert s[..k][1..] == s[1..][..k - 1];
    } else if IsSpace(s[at]) {
      k := at + 1;
      SpaceAtEnd(last, s[..k]);
    } else {
      PairInFront(last, s);
      assert at == 1 ==> s[1..][1..] == s[2..];
      k := BadCut(None, s[at + 1..]);
      k := k + at + 1;
      PairInFront(last, s[..k]);
      assert s[..k][at + 1..] == s[at + 1..][..k - at - 1];
    }
  }

  lemma SpaceAtEnd(last: Option<char>, s: string)
    requires if last.Some? then |s| == 1 && IsSpace(s[0]) else |s| == 2 && !IsSpace(s[0]) && IsSpace(s[1])
    ensures DecodePiece(last, s) == None
  {
    if last == None {
      assert Skipped(s[1..]) == Skipped(s[1..][1..]) == "";
    } else {
      assert Skipped(s) == Skipped(s[1..]) == "";
    }
  }

  /** A text without white space in a pair may be cut once. */
  lemma {:induction false} TightCut(last: Option<char>, a: string, b: string)
    requires DecodePiece(last, a + b).Some? && !SpaceInPair(last.Some?, a + b)
    ensures DecodePiece(last, a).Some?
    ensures var d := DecodePiece(last, a).value;
            DecodePiece(last, a + b) == Behind(d.bytes, DecodePiece(d.last, b)) && !SpaceInPair(d.last.Some?, b)
    decreases |a|
  {
    hide DecodePiece, NybbleOf, IsSpace, SpaceInPair;
    var at := if last.Some? then 0 else 1;
    if a != "" {
      assert (a + b)[0] == a[0];
      SpaceBehind(last.Some?, a + b);
    }
    if a == "" {
      assert a + b == b;
      NoPiece(last, a);
      BehindNothing([], DecodePiece(last, b));
    } else if last == None && IsSpace(a[0]) {
      SpaceInFront(a + b);
      SpaceInFront(a);
      assert (a + b)[1..] == a[1..] + b;
      TightCut(None, a[1..], b);
    } else if |a| == at {
      LoneDigit(a);
      if b == "" {
        assert a + b == a;
        NoPiece(Kept(a[0]), b);
        BehindNothing([], DecodePiece(Kept(a[0]), b));
        NothingInPair(Kept(a[0]).Some?, b);
      } else {
        assert (a + b)[1..] == b;
        DigitKept(a, b);
      }
    } else {
      assert (a + b)[0] == a[0] && (a + b)[at] == a[at] && (a + b)[at + 1..] == a[at + 1..] + b;
      assert at == 1 ==> (a + b)[1..][1..] == (a + b)[2..];
      SpaceBehind(true, (a + b)[at..]);
      PairInFront(last, a + b);
      PairInFront(last, a);
      TightCut(None, a[at + 1..], b);
      var d := DecodePiece(None, a[at + 1..]).value;
      BehindTwice([NybbleOf(if last.Some? then last.value else a[0]).value * 16 + NybbleOf(a[at]).value], d.bytes,
                  DecodePiece(d.last, b));
    }
  }

  lemma SpaceBehind(inPair: bool, s: string)
    requires s != "" && !SpaceInPair(inPair, s)
    ensures IsSpace(s[0]) ==> !inPair && !SpaceInPair(false, s[1..])
    ensures !IsSpace(s[0]) ==> !SpaceInPair(!inPair, s[1..])
  {
    hide IsSpace;
  }

  lemma NothingInPair(inPair: bool, s: string)
    requires s == ""
    ensures !SpaceInPair(inPair, s)
  {
  }

  lemma LoneDigit(a: string)
    requires |a| == 1 && !IsSpace(a[0])
    ensures DecodePiece(None, a) == Some(Decoded(Kept(a[0]), []))
  {
  }

  /** A digit that begins a pair is kept for the next piece. */
  lemma DigitKept(a: string, b: string)
    requires |a| == 1 && !IsSpace(a[0]) && b != ""
    ensures a[0] != '\0' ==>
              DecodePiece(None, a + b) == DecodePiece(Kept(a[0]), b) == Behind([], DecodePiece(Kept(a[0]), b))
    ensures a[0] == '\0' ==> DecodePiece(None, a + b) == None
    ensures DecodePiece(None, a + b).Some? ==> a[0] != '\0'
  {
    hide IsSpace;
    assert Skipped(a + b) == a + b && (a + b)[1..] == b;
    assert DecodePiece(None, a + b) == SecondDigit(a[0], b);
    NulIsNoDigit();
    BehindNothing([], DecodePiece(Kept(a[0]), b));
  }

  lemma NulIsNoDigit()
    ensures NybbleOf('\0') == None
  {
  }

  lemma BehindTwice(x: seq<Octet>, y: seq<Octet>, d: Option<Decoded>)
    ensures Behind(x, Behind(y, d)) == Behind(x + y, d)
  {
    if d.Some? {
      assert x + (y + d.value.bytes) == x + y + d.value.bytes;
    }
  }

  lemma {:induction false} TightPieces(last: Option<char>, pieces: seq<string>)
    requires DecodePiece(last, Flatten(pieces)).Some? && !SpaceInPair(last.Some?, Flatten(pieces))
    ensures DecodePieces(last, pieces) == DecodePiece(last, Flatten(pieces))
    decreases |pieces|
  {
    hide DecodePiece, SpaceInPair;
    if pieces == [] {
      NoPiece(last, "");
    } else {
      TightCut(last, pieces[0], Flatten(pieces[1..]));
      TightPieces(DecodePiece(last, pieces[0]).value.last, pieces[1..]);
    }
  }

  /** Such white space is passed over in one call, and is an exception at the end of a piece. */
  lemma WhiteSpaceInsidePair()
    ensures DecodePieces(None, ["4 1"]) == Some(Decoded(None, [0x41]))
    ensures DecodePieces(None, ["4 ", "1"]) == None
  {
    assert Skipped("4 1") == "4 1" && "4 1"[1..] == " 1" && " 1"[1..] == "1";
    assert Skipped(" 1") == Skipped("1") == "1";
    assert "1"[1..] == "";
    assert DecodePiece(None, "") == Some(Decoded(None, []));
    assert NybbleOf('4') == Some(4) && NybbleOf('1') == Some(1) && [0x41] + [] == [0x41];
    assert SecondDigit('4', " 1") == Some(Decoded(None, [0x41]));
    assert Skipped("4 ") == "4 " && "4 "[1..] == " " && " "[1..] == "";
    assert Skipped(" ") == "";
  }

  // ---------------------------------------------------------------- what two calls do

  /** The digit a text leaves without its partner. */
  function Pending(first: Option<char>, s: string): Option<char>
    decreases |s|
  {
    if s == "" then first
    else if IsSpace(s[0]) then Pending(first, s[1..])
    else Pending(if first == None then Some(s[0]) else None, s[1..])
  }

  lemma {:induction false} PendingSkips(first: Option<char>, s: string)
    ensures Pending(first, s) == Pending(first, Skipped(s))
    ensures Skipped(s) != "" ==>
              !IsSpace(Skipped(s)[0])
              && Pending(first, s) == Pending(if first == None then Some(Skipped(s)[0]) else None, Skipped(s)[1..])
    decreases |s|
  {
    hide IsSpace;
    if s != "" && IsSpace(s[0]) {
      PendingSkips(first, s[1..]);
    }
  }

  lemma {:induction false} SkippedConcat(a: string, b: string)
    ensures Skipped(a + b) == if Skipped(a) == "" then Skipped(b) else Skipped(a) + b
    decreases |a|
  {
    hide IsSpace;
    if a == "" {
      assert a + b == b;
    } else {
      assert (a + b)[0] == a[0] && (a + b)[1..] == a[1..] + b;
      if IsSpace(a[0]) {
        SkippedConcat(a[1..], b);
      }
    }
  }

  /** What a second call on `b` does after `a` was decoded to `d`, as one call would see it: a NUL
      in the place of a first digit is refused as soon as anything follows. */
  function Resumed(last: Option<char>, a: string, d: Decoded, b: string): Option<Decoded> {
    if b != "" && Pending(last, a) == Some('\0') then None else Behind(d.bytes, DecodePiece(d.last, b))
  }

  /** Two calls, the first of which succeeds, do what one call does, but for a NUL that ends the
      first piece in the place of a first digit: between two calls it vanishes. */
  lemma {:induction false} Resume(last: Option<char>, a: string, b: string)
    requires last != Some('\0') && DecodePiece(last, a).Some?
    ensures DecodePiece(last, a + b) == Resumed(last, a, DecodePiece(last, a).value, b)
    decreases |a|, 1
  {
    hide NybbleOf, IsSpace, Skipped, SecondDigit, Pending;
    SkippedConcat(a, b);
    PendingSkips(None, a);
    PendingEnds(last, a);
    var t := Skipped(a);
    if last.Some? {
      if a == "" {
        assert a + b == b;
        BehindNothing([], DecodePiece(last, b));
      } else {
        ResumeSecond(last.value, a, b);
      }
    } else if t == "" {
      PendingEnds(None, t);
      ManyBlanks(a, b);
      BehindNothing([], DecodePiece(None, b));
    } else if |t| == 1 {
      PendingEnds(Some(t[0]), t[1..]);
      ResumeLone(a, b);
    } else {
      assert (t + b)[1..] == t[1..] + b;
      ResumeSecond(t[0], t[1..], b);
    }
  }

  lemma PendingEnds(first: Option<char>, s: string)
    ensures s == "" ==> Pending(first, s) == first
  {
  }

  lemma ManyBlanks(a: string, b: string)
    requires Skipped(a) == ""
    ensures DecodePiece(None, a + b) == DecodePiece(None, b)
  {
    hide Skipped, SecondDigit;
    SkippedConcat(a, b);
  }

  lemma ResumeLone(a: string, b: string)
    requires |Skipped(a)| == 1
    ensures var c := Skipped(a)[0];
            && DecodePiece(None, a) == Some(Decoded(Kept(c), []))
            && DecodePiece(None, a + b) ==
               if b != "" && c == '\0' then None else Behind([], DecodePiece(Kept(c), b))
  {
    hide Skipped;
    SkippedConcat(a, b);
    var t := Skipped(a);
    assert (t + b)[1..] == b;
    NulIsNoDigit();
    BehindNothing([], DecodePiece(Kept(t[0]), b));
  }

  lemma {:induction false} ResumeSecond(first: char, s: string, b: string)
    requires s != "" && SecondDigit(first, s).Some?
    ensures SecondDigit(first, s + b) == Resumed(Some(first), s, SecondDigit(first, s).value, b)
    decreases |s|, 0
  {
    hide NybbleOf, IsSpace, Skipped, DecodePiece, Pending;
    SkippedConcat(s, b);
    PendingSkips(Some(first), s);
    var u := Skipped(s);
    assert (u + b)[0] == u[0] && (u + b)[1..] == u[1..] + b;
    Resume(None, u[1..], b);
    var d := DecodePiece(None, u[1..]).value;
    BehindTwice([NybbleOf(first).value * 16 + NybbleOf(u[0]).value], d.bytes, DecodePiece(d.last, b));
  }

  /** A text without NUL that is accepted in some pieces is accepted in one, with the same result:
      refused in one call, it is refused however it is cut. */
  lemma {:induction false} AcceptedPieces(last: Option<char>, pieces: seq<string>)
    requires last != Some('\0') && '\0' !in Flatten(pieces) && DecodePieces(last, pieces).Some?
    ensures DecodePiece(last, Flatten(pieces)) == DecodePieces(last, pieces)
    decreases |pieces|
  {
    hide DecodePiece, Pending;
    if pieces == [] {
      NoPiece(last, "");
    } else {
      var d := DecodePiece(last, pieces[0]).value;
      Resume(last, pieces[0], Flatten(pieces[1..]));
      PendingOccurs(last, pieces[0]);
      KeepsNoNul(last, pieces[0]);
      AcceptedPieces(d.last, pieces[1..]);
    }
  }

  lemma {:induction false} PendingOccurs(first: Option<char>, s: string)
    ensures Pending(first, s) == first || (Pending(first, s).Some? && Pending(first, s).value in s)
            || Pending(first, s) == None
    decreases |s|
  {
    hide IsSpace;
    if s != "" {
      PendingOccurs(if IsSpace(s[0]) then first else if first == None then Some(s[0]) else None, s[1..]);
    }
  }

  /** A call never keeps a NUL. */
  lemma {:induction false} KeepsNoNul(last: Option<char>, s: string)
    requires last != Some('\0') && DecodePiece(last, s).Some?
    ensures DecodePiece(last, s).value.last != Some('\0')
    decreases |s|
  {
    hide NybbleOf, Skipped;
    if last.Some? && s != "" {
      KeepsNoNul(None, Skipped(s)[1..]);
    } else if |Skipped(s)| > 1 {
      KeepsNoNul(None, Skipped(Skipped(s)[1..])[1..]);
    }
  }

  /** The NUL that vanishes. */
  lemma NulVanishes()
    ensures DecodePieces(None, ["\0", "41"]) == Some(Decoded(None, [0x41]))
    ensures DecodePiece(None, "\0" + "41") == None
  {
    TwoPieces(None, "\0", "41");
    assert !IsSpace('\0');
    LoneDigit("\0");
    PairInFront(None, "41");
    assert "41"[2..] == "" && NybbleOf('4') == Some(4) && NybbleOf('1') == Some(1);
    NoPiece(None, "");
    BehindEmpty([0x41], DecodePiece(None, ""));
    BehindNothing([], DecodePiece(None, "41"));
    DigitKept("\0", "41");
  }

  // ---------------------------------------------------------------- the decoder

  /** More bytes in front of a result. */
  function Behind(bytes: seq<Octet>, d: Option<Decoded>): Option<Decoded> {
    match d
    case None => None
    case Some(e) => Some(Decoded(e.last, bytes + e.bytes))
  }

  class Decoder {
    var lastbyte: char

    constructor ()
      ensures Last() == None
    {
      lastbyte := '\0';
    }

    /** The digit kept from the last piece. */
    function Last(): Option<char> reads this { Kept(lastbyte) }

    /** readnext */
    method ReadNext(inbuf: string, rpos: nat) returns (more: bool, c: char, rpos': nat)
      requires rpos < |inbuf|
      modifies this
      ensures rpos <= rpos' <= |inbuf| && more == (rpos' < |inbuf|)
      ensures Last() == if rpos == 0 then None else old(Last())
      ensures if rpos == 0 && old(Last()).Some? then c == old(Last()).value && rpos' == 0
              else
                var t := Skipped(inbuf[rpos..]);
                rpos' > 0 && c == inbuf[rpos' - 1]
                && if t == "" then rpos' == |inbuf| && IsSpace(c)
                   else c == t[0] && !IsSpace(c) && inbuf[rpos'..] == t[1..]
    {
      if rpos == 0 && lastbyte != '\0' {
        c, rpos' := lastbyte, rpos;
        lastbyte := '\0';
      } else {
        c, rpos' := inbuf[rpos], rpos + 1;
        while IsSpace(c) && rpos' < |inbuf|
          invariant rpos < rpos' <= |inbuf| && c == inbuf[rpos' - 1]
          invariant Skipped(inbuf[rpos..]) == Skipped(inbuf[rpos' - 1..])
          decreases |inbuf| - rpos'
        {
          c, rpos' := inbuf[rpos'], rpos' + 1;
        }
      }
      more := rpos' < |inbuf|;
    }

    /** decode; not `ok` is the exception. */
    method Decode(inbuf: string, outbuf: array<Octet>) returns (ok: bool, nwrite: nat)
      requires |inbuf| < outbuf.Length
      modifies this, outbuf
      ensures nwrite <= outbuf.Length
      ensures var d := DecodePiece(old(Last()), inbuf);
              (ok <==> d.Some?) && (ok ==> Some(Decoded(Last(), outbuf[..nwrite])) == d)
    {
      hide DecodePiece, SecondDigit, Skipped, NybbleOf, IsSpace, Behind;
      var rpos := 0;
      nwrite := 0;
      ghost var whole := DecodePiece(Last(), inbuf);
      assert inbuf[0..] == inbuf;
      BehindNothing(outbuf[..0], whole);
      while rpos < |inbuf|
        invariant rpos <= |inbuf| && 2 * nwrite <= rpos + 1
        invariant rpos > 0 ==> Last() == None
        invariant whole == Behind(outbuf[..nwrite], DecodePiece(Last(), inbuf[rpos..]))
      {
        ghost var last, s, bytes := Last(), inbuf[rpos..], outbuf[..nwrite];
        var more, c, next := ReadNext(inbuf, rpos);
        if !more {
          NoSecondDigit(bytes, s);
          if !IsSpace(inbuf[next - 1]) {
            lastbyte := inbuf[next - 1];
          }
          return true, nwrite;
        }
        ghost var first, rest := c, inbuf[next..];
        FirstDigit(bytes, last, s, first, rest);
        var high := NybbleOf(c);
        if high.None? {
          return false, nwrite;
        }
        more, c, next := ReadNext(inbuf, next);
        if IsSpace(c) {
          SpaceIsNoDigit(c);
        }
        var low := NybbleOf(c);
        if low.None? {
          return false, nwrite;
        }
        var n: int := high.value;
        outbuf[nwrite] := n * 16 + low.value;
        nwrite := nwrite + 1;
        assert outbuf[..nwrite] == bytes + [n * 16 + low.value];
        rpos := next;
      }
      PieceEnds(outbuf[..nwrite], Last(), inbuf[rpos..]);
      ok := true;
    }
  }

  lemma BehindNothing(bytes: seq<Octet>, d: Option<Decoded>)
    requires bytes == []
    ensures Behind(bytes, d) == d
  {
    if d.Some? {
      assert bytes + d.value.bytes == d.value.bytes;
    }
  }

  lemma PieceEnds(bytes: seq<Octet>, last: Option<char>, s: string)
    requires s == ""
    ensures Behind(bytes, DecodePiece(last, s)) == Some(Decoded(last, bytes))
  {
    NoPiece(last, s);
    BehindEmpty(bytes, DecodePiece(last, s));
  }

  lemma NoPiece(last: Option<char>, s: string)
    requires s == ""
    ensures DecodePiece(last, s).Some? && DecodePiece(last, s).value.last == last
            && DecodePiece(last, s).value.bytes == []
  {
  }

  lemma BehindEmpty(bytes: seq<Octet>, d: Option<Decoded>)
    requires d.Some? && d.value.bytes == []
    ensures Behind(bytes, d) == Some(Decoded(d.value.last, bytes))
  {
    assert bytes + d.value.bytes == bytes;
  }

  /** A piece that ends in front of a digit, or right behind one. */
  lemma NoSecondDigit(bytes: seq<Octet>, s: string)
    requires |Skipped(s)| <= 1
    ensures Behind(bytes, DecodePiece(None, s)) ==
              Some(Decoded(if Skipped(s) == "" then None else Kept(Skipped(s)[0]), bytes))
  {
    assert bytes + [] == bytes;
  }

  /** The first digit of a pair is the one kept, or the next one of the piece. */
  lemma FirstDigit(bytes: seq<Octet>, last: Option<char>, s: string, first: char, rest: string)
    requires rest != ""
    requires if last.Some? then first == last.value && rest == s
             else Skipped(s) != "" && first == Skipped(s)[0] && rest == Skipped(s)[1..]
    ensures var u := Skipped(rest);
            var d := Behind(bytes, DecodePiece(last, s));
            if u == "" || NybbleOf(first).None? || NybbleOf(u[0]).None? then d == None
            else d == Behind(bytes + [NybbleOf(first).value * 16 + NybbleOf(u[0]).value], DecodePiece(None, u[1..]))
  {
    hide Skipped, NybbleOf;
    var u := Skipped(rest);
    assert DecodePiece(last, s) == SecondDigit(first, rest);
    if u != "" && NybbleOf(first).Some? && NybbleOf(u[0]).Some? {
      var e := DecodePiece(None, u[1..]);
      if e.Some? {
        var b := [NybbleOf(first).value * 16 + NybbleOf(u[0]).value];
        assert bytes + (b + e.value.bytes) == bytes + b + e.value.bytes;
      }
    }
  }

  lemma SpaceIsNoDigit(c: char)
    requires IsSpace(c)
    ensures NybbleOf(c) == None
  {
  }
}
