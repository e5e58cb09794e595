/** The resumable Base64 codec. Its coroutines keep a partial symbol between calls; here a
    byte is an integer, and `|` of bits that the shifts keep apart is a sum.
 */
module Base64 {
  import opened Sequences
  import opened TextLines
  import opened Alphabets

  /** A value of six bits. */
  type Sextet = v: int | 0 <= v < 64

  // ---------------------------------------------------------------- the alphabet

  /** encode_value: the alphabet of RFC 4648, by its ranges */
  function EncodeValue(v: Sextet): char {
    if v < 26 then ('A' as int + v) as char
    else if v < 52 then ('a' as int + v - 26) as char
    else if v < 62 then ('0' as int + v - 52) as char
    else if v == 62 then '+'
    else '/'
  }

  /** decode_value; the original's table gives '=' a value of its own, but no caller tells
      it from other characters that carry no bits. */
  function DecodeValue(c: char): (v: int)
    ensures -2 <= v < 64
  {
    if 'A' <= c <= 'Z' then c as int - 'A' as int
    else if 'a' <= c <= 'z' then c as int - 'a' as int + 26
    else if '0' <= c <= '9' then c as int - '0' as int + 52
    else if c == '+' then 62
    else if c == '/' then 63
    else if c == '=' then -2
    else -1
  }

  const LETTERS := "ABCDEFGHIJKLM" + "NOPQRSTUVWXYZ" + "abcdefghijklm" + "nopqrstuvwxyz"
  const MARKS := "0123456789+/"
  const ALPHABET := LETTERS + MARKS

  lemma LettersAre(v: nat)
    requires v < 52
    ensures |LETTERS| == 52 && LETTERS[v] as int == if v < 26 then 'A' as int + v else 'a' as int + v - 26
  {
    HalvesAre();
    var A, N, a, n := "ABCDEFGHIJKLM", "NOPQRSTUVWXYZ", "abcdefghijklm", "nopqrstuvwxyz";
    assert LETTERS == A + N + a + n;
  }

  /** The alphabet of RFC 4648 section 4, written out. */
  lemma AlphabetIs(v: Sextet)
    ensures |ALPHABET| == 64 && EncodeValue(v) == ALPHABET[v]
  {
    hide LETTERS;
    LettersAre(if v < 52 then v else 0);
    assert |MARKS| == 12;
    if v < 52 {
      assert ALPHABET[v] == LETTERS[v];
    } else {
      assert ALPHABET[v] == MARKS[v - 52];
    }
  }

  /** A character carries bits exactly if it is in the alphabet, and then those of its place. */
  lemma DecodeIsPlace(c: char)
    ensures DecodeValue(c) >= 0 <==> c in ALPHABET
    ensures DecodeValue(c) >= 0 ==> ALPHABET[DecodeValue(c)] == c
  {
    hide EncodeValue, ALPHABET;
    AlphabetIs(0);
    if DecodeValue(c) >= 0 {
      AlphabetIs(DecodeValue(c));
      PlaceRoundTrip(c);
    } else {
      forall v | 0 <= v < 64 ensures ALPHABET[v] != c {
        AlphabetIs(v);
        ValueRoundTrip(v);
      }
    }
  }

  lemma PlaceRoundTrip(c: char)
    ensures DecodeValue(c) >= 0 ==> EncodeValue(DecodeValue(c)) == c
  {
  }

  lemma ValueRoundTrip(v: Sextet)
    ensures DecodeValue(EncodeValue(v)) == v
  {
  }

  // ---------------------------------------------------------------- encoding, byte by byte

  datatype EncodeStep = StepA | StepB | StepC

  /** encodestate, without the flag that ends the output with a line feed */
  datatype Encoding = Encoding(step: EncodeStep, result: int, stepcount: int, linelength: int)
  {
    /** The bits kept are those the step needs. */
    predicate Valid() {
      && stepcount >= 0
      && (step.StepB? ==> 0 <= result < 64 && result % 16 == 0)
      && (step.StepC? ==> 0 <= result < 64 && result % 4 == 0)
    }
  }

  function Fresh(linelength: int): Encoding { Encoding(StepA, 0, 0, linelength) }

  /** What one byte adds to the text. */
  function EncodeByte(s: Encoding, b: Octet): (r: (Encoding, string))
    requires s.Valid()
    ensures r.0.Valid() && r.0.linelength == s.linelength
  {
    match s.step
    case StepA => (s.(step := StepB, result := b % 4 * 16), [EncodeValue(b / 4)])
    case StepB => (s.(step := StepC, result := b % 16 * 4), [EncodeValue(s.result + b / 16)])
    case StepC =>
      var group := [EncodeValue(s.result + b / 64), EncodeValue(b % 64)];
      var t := s.(step := StepA, result := b % 64);
      if s.linelength == 0 then (t, group)
      else if s.stepcount + 1 == s.linelength / 4 then (t.(stepcount := 0), group + "\n")
      else (t.(stepcount := s.stepcount + 1), group)
  }

  function EncodeAll(s: Encoding, data: seq<Octet>): (r: (Encoding, string))
    requires s.Valid()
    ensures r.0.Valid() && r.0.linelength == s.linelength
  {
    if data == [] then (s, "")
    else
      var r := EncodeAll(s, data[..|data| - 1]);
      var e := EncodeByte(r.0, data[|data| - 1]);
      (e.0, r.1 + e.1)
  }

  /** encode_blockend */
  function Ending(s: Encoding): string
    requires s.Valid()
  {
    match s.step
    case StepA => ""
    case StepB => [EncodeValue(s.result), '=', '=']
    case StepC => [EncodeValue(s.result), '=']
  }

  /** The line feed at the end, where it is asked for. */
  function Terminator(terminate: bool): string { if terminate then "\n" else "" }

  lemma EncodeSnoc(s: Encoding, data: seq<Octet>, k: nat)
    requires s.Valid() && k < |data|
    ensures var r := EncodeAll(s, data[..k]);
            var e := EncodeByte(r.0, data[k]);
            EncodeAll(s, data[..k + 1]) == (e.0, r.1 + e.1)
  {
    assert data[..k + 1][..k] == data[..k];
  }

  /** Encoding in two calls is encoding in one. */
  lemma {:induction false} EncodeConcat(s: Encoding, a: seq<Octet>, b: seq<Octet>)
    requires s.Valid()
    ensures var r := EncodeAll(s, a);
            var q := EncodeAll(r.0, b);
            EncodeAll(s, a + b) == (q.0, r.1 + q.1)
  {
    hide EncodeByte;
    if b == [] {
      assert a + b == a;
      assert EncodeAll(s, a).1 + "" == EncodeAll(s, a).1;
    } else {
      var n := |b| - 1;
      EncodeConcat(s, a, b[..n]);
      var c := a + b;
      assert c[..|a| + n] == a + b[..n] && c[|a| + n] == b[n];
      var r := EncodeAll(s, a);
      var q := EncodeAll(r.0, b[..n]);
      var e := EncodeByte(q.0, b[n]);
      assert r.1 + q.1 + e.1 == r.1 + (q.1 + e.1);
    }
  }

  // ---------------------------------------------------------------- RFC 4648

  /** Three bytes as four characters of six bits each (RFC 4648 section 4). */
  function Quantum(x: Octet, y: Octet, z: Octet): string {
    var bits := x * 65536 + y * 256 + z;
    [EncodeValue(bits / 262144), EncodeValue(bits / 4096 % 64), EncodeValue(bits / 64 % 64), EncodeValue(bits % 64)]
  }

  function Rfc4648(data: seq<Octet>): string {
    if data == [] then ""
    else if |data| == 1 then Quantum(data[0], 0, 0)[..2] + "=="
    else if |data| == 2 then Quantum(data[0], data[1], 0)[..3] + "="
    else Quantum(data[0], data[1], data[2]) + Rfc4648(data[3..])
  }

  lemma TestQuanta()
    ensures Quantum('f' as int, 0, 0)[..2] == "Zg" && Quantum('f' as int, 'o' as int, 0)[..3] == "Zm8"
    ensures Quantum('f' as int, 'o' as int, 'o' as int) == "Zm9v"
    ensures Quantum('b' as int, 'a' as int, 'r' as int) == "YmFy"
  {
  }

  /** The test vectors of RFC 4648 section 10. */
  lemma TestVectors()
    ensures Rfc4648([]) == "" && Rfc4648(['f' as int]) == "Zg==" && Rfc4648(['f' as int, 'o' as int]) == "Zm8="
    ensures Rfc4648(['f' as int, 'o' as int, 'o' as int]) == "Zm9v"
    ensures Rfc4648(['f' as int, 'o' as int, 'o' as int, 'b' as int, 'a' as int, 'r' as int]) == "Zm9vYmFy"
  {
    hide Quantum;
    TestQuanta();
    var foobar := ['f' as int, 'o' as int, 'o' as int, 'b' as int, 'a' as int, 'r' as int];
    var foo, bar := ['f' as int, 'o' as int, 'o' as int], ['b' as int, 'a' as int, 'r' as int];
    assert foobar[3..] == bar && bar[3..] == [] && foo[3..] == [];
    assert Rfc4648(bar) == "YmFy" + Rfc4648([]);
    assert Rfc4648(foobar) == "Zm9v" + Rfc4648(bar);
    assert Rfc4648(foo) == "Zm9v" + Rfc4648([]);
  }

  /** The characters in a line. */
  function Width(linelength: int): nat { if linelength >= 4 then linelength / 4 * 4 else 0 }

  /** The bytes in whole groups of three, and the rest. */
  function Whole(data: seq<Octet>): seq<Octet> { data[..|data| - |data| % 3] }

  function Rest(data: seq<Octet>): seq<Octet> { data[|data| - |data| % 3..] }

  lemma {:induction false} RfcConcat(a: seq<Octet>, b: seq<Octet>)
    requires |a| % 3 == 0
    ensures Rfc4648(a + b) == Rfc4648(a) + Rfc4648(b)
  {
    hide Quantum;
    if a == [] {
      assert a + b == b;
    } else {
      RfcConcat(a[3..], b);
      assert (a + b)[3..] == a[3..] + b;
    }
  }

  lemma {:induction false} RfcLength(a: seq<Octet>)
    requires |a| % 3 == 0
    ensures |Rfc4648(a)| == |a| + |a| / 3
  {
    hide EncodeValue;
    if a != [] {
      RfcLength(a[3..]);
    }
  }

  /** The first two groups of bits of an unfinished quantum. */
  function Begun(rest: seq<Octet>): string
    requires |rest| < 3
  {
    if rest == [] then ""
    else if |rest| == 1 then [EncodeValue(rest[0] / 4)]
    else [EncodeValue(rest[0] / 4), EncodeValue(rest[0] % 4 * 16 + rest[1] / 16)]
  }

  /** The state after some bytes, and the text they have led to. */
  predicate Encoded(data: seq<Octet>, linelength: int, r: (Encoding, string)) {
    var rest := Rest(data);
    var w := Width(linelength);
    && r.0.linelength == linelength
    && r.1 == Wrap(Rfc4648(Whole(data)), w) + Begun(rest)
    && (w > 0 ==> r.0.stepcount * 4 == LastLine(|Rfc4648(Whole(data))|, w))
    && (match r.0.step
        case StepA => rest == []
        case StepB => |rest| == 1 && r.0.result == rest[0] % 4 * 16
        case StepC => |rest| == 2 && r.0.result == rest[1] % 16 * 4)
  }

  lemma QuantumDigits(x: Octet, y: Octet, z: Octet)
    ensures Quantum(x, y, z) ==
              [EncodeValue(x / 4), EncodeValue(x % 4 * 16 + y / 16), EncodeValue(y % 16 * 4 + z / 64),
                  EncodeValue(z % 64)]
  {
    hide EncodeValue;
    SextetsOf(x / 4, x % 4, y / 16, y % 16, z / 64, z % 64);
    assert x == x / 4 * 4 + x % 4 && y == y / 16 * 16 + y % 16 && z == z / 64 * 64 + z % 64;
  }

  /** The bits of three bytes, cut where the symbols are cut. */
  lemma SextetsOf(x1: int, x0: int, y1: int, y0: int, z1: int, z0: int)
    requires 0 <= x1 < 64 && 0 <= x0 < 4 && 0 <= y1 < 16 && 0 <= y0 < 16 && 0 <= z1 < 4 && 0 <= z0 < 64
    ensures var bits := (x1 * 4 + x0) * 65536 + (y1 * 16 + y0) * 256 + (z1 * 64 + z0);
            && bits / 262144 == x1 && bits / 4096 % 64 == x0 * 16 + y1
            && bits / 64 % 64 == y0 * 4 + z1 && bits % 64 == z0
  {
    var bits := (x1 * 4 + x0) * 65536 + (y1 * 16 + y0) * 256 + (z1 * 64 + z0);
    var b, c := x0 * 16 + y1, y0 * 4 + z1;
    assert bits == 64 * (64 * (64 * x1 + b) + c) + z0;
    SplitOff(64 * (64 * x1 + b) + c, z0);
    SplitOff(64 * x1 + b, c);
    SplitOff(x1, b);
    DivideTwice(bits);
  }

  lemma SplitOff(q: int, r: int)
    requires 0 <= r < 64
    ensures (64 * q + r) / 64 == q && (64 * q + r) % 64 == r
  {
  }

  lemma DivideTwice(n: int)
    ensures n / 4096 == n / 64 / 64 && n / 262144 == n / 4096 / 64
  {
  }

  lemma {:induction false} EncodeIsWrapped(data: seq<Octet>, linelength: int)
    ensures Encoded(data, linelength, EncodeAll(Fresh(linelength), data))
  {
    if data != [] {
      var n := |data| - 1;
      EncodeIsWrapped(data[..n], linelength);
      EncodedNext(data, linelength, EncodeAll(Fresh(linelength), data[..n]));
    }
  }

  lemma EncodedNext(data: seq<Octet>, linelength: int, r: (Encoding, string))
    requires data != [] && r.0.Valid() && Encoded(data[..|data| - 1], linelength, r)
    ensures var e := EncodeByte(r.0, data[|data| - 1]);
            Encoded(data, linelength, (e.0, r.1 + e.1))
  {
    hide Wrap, Rfc4648, LastLine, EncodeValue, Quantum;
    var n := |data| - 1;
    var before := data[..n];
    if r.0.step.StepC? {
      LastOfThree(data, linelength, r);
    } else {
      assert Whole(data) == Whole(before);
      assert Rest(data) == Rest(before) + [data[n]];
    }
  }

  lemma LastOfThree(data: seq<Octet>, linelength: int, r: (Encoding, string))
    requires data != [] && r.0.Valid() && r.0.step.StepC? && Encoded(data[..|data| - 1], linelength, r)
    ensures var e := EncodeByte(r.0, data[|data| - 1]);
            Encoded(data, linelength, (e.0, r.1 + e.1))
  {
    hide Wrap, Rfc4648, LastLine, EncodeValue, Quantum;
    var n := |data| - 1;
    var before := data[..n];
    var whole, rest := Whole(before), Rest(before);
    assert Whole(data) == whole + [rest[0], rest[1]] + [data[n]];
    assert Rest(data) == [];
    GroupEncoded(whole, rest[0], rest[1], data[n]);
    QuantumDigits(rest[0], rest[1], data[n]);
    var text, group := Rfc4648(whole), Quantum(rest[0], rest[1], data[n]);
    var w := Width(linelength);
    var e := EncodeByte(r.0, data[n]);
    GroupWrapped(text, group, w);
    assert r.1 + e.1 == Wrap(text, w) + group + (if w > 0 && LastLine(|text|, w) + 4 == w then "\n" else "");
  }

  /** One more group of four characters: the line it fills is ended. */
  lemma GroupWrapped(text: string, group: string, w: nat)
    requires |text| % 4 == 0 && |group| == 4 && w % 4 == 0
    ensures Wrap(text + group, w) ==
            Wrap(text, w) + group + (if w > 0 && LastLine(|text|, w) + 4 == w then "\n" else "")
    ensures w > 0 ==>
              LastLine(|text| + 4, w) == if LastLine(|text|, w) + 4 == w then 0 else LastLine(|text|, w) + 4
  {
    hide Wrap, LastLine;
    if w > 0 {
      LastLineOfFours(|text|, w);
      WrapMore(text, w, group);
      LastLineMore(|text|, w, 4);
    } else {
      NoWrap(text);
      NoWrap(text + group);
    }
  }

  lemma GroupEncoded(whole: seq<Octet>, x: Octet, y: Octet, z: Octet)
    requires |whole| % 3 == 0
    ensures Rfc4648(whole + [x, y] + [z]) == Rfc4648(whole) + Quantum(x, y, z)
    ensures |Rfc4648(whole)| % 4 == 0
  {
    OneQuantum([x, y, z]);
    RfcConcat(whole, [x, y, z]);
    RfcLength(whole);
    hide Quantum, Rfc4648;
    assert whole + [x, y] + [z] == whole + [x, y, z];
    FourThirds(|whole|);
  }

  lemma FourThirds(n: nat)
    requires n % 3 == 0
    ensures (n + n / 3) % 4 == 0
  {
    var k := n / 3;
    assert n == 3 * k && n + n / 3 == 4 * k;
  }

  lemma OneQuantum(group: seq<Octet>)
    requires |group| == 3
    ensures Rfc4648(group) == Quantum(group[0], group[1], group[2])
  {
    hide Quantum;
    assert group[3..] == [];
    assert Rfc4648(group[3..]) == "";
  }

  /** The text of the whole groups, in lines, and the padded rest: RFC 4648 plus line feeds. */
  lemma EncodeIsRfc4648(data: seq<Octet>, linelength: int)
    ensures var r := EncodeAll(Fresh(linelength), data);
            && r.1 + Ending(r.0) == Wrap(Rfc4648(Whole(data)), Width(linelength)) + Rfc4648(Rest(data))
            && Rfc4648(Whole(data)) + Rfc4648(Rest(data)) == Rfc4648(data)
  {
    hide Rfc4648, Ending, Begun, Wrap, EncodeAll, LastLine;
    var r := EncodeAll(Fresh(linelength), data);
    EncodeIsWrapped(data, linelength);
    assert Whole(data) + Rest(data) == data;
    RfcConcat(Whole(data), Rest(data));
    RestEncoded(data, linelength, r);
    var t := Wrap(Rfc4648(Whole(data)), Width(linelength));
    assert r.1 + Ending(r.0) == t + (Begun(Rest(data)) + Ending(r.0));
  }

  lemma RestEncoded(data: seq<Octet>, linelength: int, r: (Encoding, string))
    requires r.0.Valid() && Encoded(data, linelength, r)
    ensures Begun(Rest(data)) + Ending(r.0) == Rfc4648(Rest(data))
  {
    hide Wrap, LastLine, EncodeValue, Quantum;
    var rest := Rest(data);
    if |rest| == 1 {
      QuantumDigits(rest[0], 0, 0);
    } else if |rest| == 2 {
      QuantumDigits(rest[0], rest[1], 0);
    }
  }

  // ---------------------------------------------------------------- layout and size

  /** The exact size of what encode_block writes, and that the callers' buffers of twice the
      input hold it. */
  lemma EncodedSize(data: seq<Octet>, linelength: int)
    ensures var text := EncodeAll(Fresh(linelength), data).1;
            && |text| == |data| + |data| / 3 + (if linelength >= 4 then |data| / 3 / (linelength / 4) else 0)
            && |text| <= 2 * |data|
  {
    hide Rfc4648, Wrap, EncodeAll, LastLine, EncodeValue;
    EncodeIsWrapped(data, linelength);
    var whole := Rfc4648(Whole(data));
    RfcLength(Whole(data));
    if linelength >= 4 {
      RfcLetters(Whole(data));
      WrapLayout(whole, Width(linelength));
      FourTimes(|data| / 3, linelength / 4);
      AtMost(|data| / 3, linelength / 4);
    } else {
      NoWrap(whole);
    }
  }

  /** The exact size of what encode_blockend writes: twice the input holds it unless that is a
      single byte. */
  lemma EndingSize(data: seq<Octet>, linelength: int)
    ensures var end := Ending(EncodeAll(Fresh(linelength), data).0);
            && |end| == (if |data| % 3 == 0 then 0 else 4 - |data| % 3)
            && (|end| <= 2 * |data| <==> |data| != 1)
  {
    hide Rfc4648, Wrap, EncodeAll, LastLine, EncodeValue;
    EncodeIsWrapped(data, linelength);
  }

  lemma FourTimes(n: nat, d: nat)
    requires d > 0
    ensures n * 4 / (d * 4) == n / d
  {
    assert n == d * (n / d) + n % d;
    assert n * 4 == (d * 4) * (n / d) + n % d * 4;
    QuotientOf(n * 4, d * 4, n / d, n % d * 4);
  }

  lemma AtMost(n: nat, d: nat)
    requires d > 0
    ensures 0 <= n / d <= n
  {
    var q := n / d;
    assert n == q * d + n % d;
    Above(q, d, 0);
  }

  lemma {:induction false} RfcLetters(data: seq<Octet>)
    ensures NoLineFeed(Rfc4648(data))
  {
    if |data| == 1 {
      QuantumLetters(data[0], 0, 0);
    } else if |data| == 2 {
      QuantumLetters(data[0], data[1], 0);
    } else if |data| > 2 {
      QuantumLetters(data[0], data[1], data[2]);
      hide Quantum;
      RfcLetters(data[3..]);
    }
  }

  lemma QuantumLetters(x: Octet, y: Octet, z: Octet)
    ensures |Quantum(x, y, z)| == 4 && NoLineFeed(Quantum(x, y, z))
  {
  }

  // ---------------------------------------------------------------- decoding, character by character

  datatype DecodeStep = StepP | StepQ | StepR | StepS

  /** decodestate: `plainchar` is the byte begun. The original leaves an unspecified
      character there when no byte is begun; here it is 0. */
  datatype Decoding = Decoding(step: DecodeStep, plainchar: int)
  {
    predicate Valid() {
      && 0 <= plainchar < 256
      && (step.StepQ? ==> plainchar % 4 == 0)
      && (step.StepR? ==> plainchar % 16 == 0)
      && (step.StepS? ==> plainchar % 64 == 0)
    }
  }

  const DECODE_START := Decoding(StepP, 0)

  /** What one character adds to the bytes; one that carries no bits is passed over. */
  function DecodeChar(s: Decoding, c: char): (r: (Decoding, seq<Octet>))
    requires s.Valid()
    ensures r.0.Valid()
  {
    var v := DecodeValue(c);
    if v < 0 then (s, []) else DecodeBits(s, v)
  }

  /** The bits of a symbol go into the free low places of a byte. */
  lemma BitsFit(s: Decoding, v: Sextet)
    requires s.Valid()
    ensures s.step.StepQ? ==> s.plainchar + v / 16 < 256
    ensures s.step.StepR? ==> s.plainchar + v / 4 < 256
    ensures s.step.StepS? ==> s.plainchar + v < 256
    ensures v % 16 * 16 % 16 == 0 && v % 4 * 64 % 64 == 0
  {
    MultipleFits(s.plainchar, 4);
    MultipleFits(s.plainchar, 16);
    MultipleFits(s.plainchar, 64);
  }

  lemma MultipleFits(a: int, d: int)
    requires 0 <= a < 256 && (d == 4 || d == 16 || d == 64)
    ensures a % d == 0 ==> a <= 256 - d
  {
  }

  function DecodeBits(s: Decoding, v: Sextet): (r: (Decoding, seq<Octet>))
    requires s.Valid()
    ensures r.0.Valid()
  {
    BitsFit(s, v);
    match s.step
    case StepP => (Decoding(StepQ, v * 4), [])
    case StepQ => (Decoding(StepR, v % 16 * 16), [s.plainchar + v / 16])
    case StepR => (Decoding(StepS, v % 4 * 64), [s.plainchar + v / 4])
    case StepS => (DECODE_START, [s.plainchar + v])
  }

  function DecodeAll(s: Decoding, code: string): (r: (Decoding, seq<Octet>))
    requires s.Valid()
    ensures r.0.Valid()
  {
    if code == "" then (s, [])
    else
      var r := DecodeAll(s, code[..|code| - 1]);
      var e := DecodeChar(r.0, code[|code| - 1]);
      (e.0, r.1 + e.1)
  }

  lemma DecodeSnoc(s: Decoding, code: string, k: nat)
    requires s.Valid() && k < |code|
    ensures var r := DecodeAll(s, code[..k]);
            var e := DecodeChar(r.0, code[k]);
            DecodeAll(s, code[..k + 1]) == (e.0, r.1 + e.1)
  {
    assert code[..k + 1][..k] == code[..k];
  }

  /** Decoding in two calls is decoding in one. */
  lemma {:induction false} DecodeConcat(s: Decoding, a: string, b: string)
    requires s.Valid()
    ensures var r := DecodeAll(s, a);
            var q := DecodeAll(r.0, b);
            DecodeAll(s, a + b) == (q.0, r.1 + q.1)
  {
    hide DecodeChar;
    if b == [] {
      assert a + b == a;
      assert DecodeAll(s, a).1 + [] == DecodeAll(s, a).1;
    } else {
      var n := |b| - 1;
      DecodeConcat(s, a, b[..n]);
      var c := a + b;
      assert c[..|a| + n] == a + b[..n] && c[|a| + n] == b[n];
      var r := DecodeAll(s, a);
      var q := DecodeAll(r.0, b[..n]);
      var e := DecodeChar(q.0, b[n]);
      assert r.1 + q.1 + e.1 == r.1 + (q.1 + e.1);
    }
  }

  /** The text without the characters outside of the alphabet. */
  function OnlyAlphabet(code: string): string {
    if code == "" then ""
    else
      var c := code[|code| - 1];
      OnlyAlphabet(code[..|code| - 1]) + if c in ALPHABET then [c] else ""
  }

  /** Whatever is not in the alphabet, padding and line feeds included, is passed over. */
  lemma {:induction false} OthersAreNothing(s: Decoding, code: string)
    requires s.Valid()
    ensures DecodeAll(s, code) == DecodeAll(s, OnlyAlphabet(code))
  {
    hide ALPHABET, DecodeBits;
    if code != "" {
      var n := |code| - 1;
      OthersAreNothing(s, code[..n]);
      DecodeIsPlace(code[n]);
      var v := OnlyAlphabet(code[..n]);
      if code[n] in ALPHABET {
        var t := v + [code[n]];
        assert t[..|t| - 1] == v && t[|t| - 1] == code[n];
      } else {
        var r := DecodeAll(s, v);
        assert v + "" == v && r.1 + [] == r.1;
      }
    }
  }

  lemma DecodeOne(s: Decoding, c: char)
    requires s.Valid()
    ensures DecodeAll(s, [c]) == DecodeChar(s, c)
  {
    assert [c][..0] == "";
    assert DecodeAll(s, "") == (s, []);
    assert [] + DecodeChar(s, c).1 == DecodeChar(s, c).1;
  }

  /** A line feed carries no bits. */
  lemma {:induction false} DecodeWrapped(s: Decoding, text: string, w: nat)
    requires s.Valid()
    ensures DecodeAll(s, Wrap(text, w)) == DecodeAll(s, text)
    decreases |text|
  {
    hide DecodeAll, DecodeChar;
    if w > 0 && |text| >= w {
      var a, b := text[..w], text[w..];
      var r := DecodeAll(s, a);
      LineFeedIsNothing(r.0);
      DecodeWrapped(r.0, b, w);
      DecodeConcat(s, a, "\n" + Wrap(b, w));
      DecodeConcat(r.0, "\n", Wrap(b, w));
      DecodeConcat(s, a, b);
      assert Wrap(text, w) == a + ("\n" + Wrap(b, w));
      assert text == a + b;
      var q := DecodeAll(r.0, b);
      assert [] + q.1 == q.1;
    }
  }

  lemma LineFeedIsNothing(s: Decoding)
    requires s.Valid()
    ensures DecodeAll(s, "\n") == (s, [])
  {
    DecodeOne(s, '\n');
  }

  lemma DecodeTwo(s: Decoding, c: char, d: char)
    requires s.Valid()
    ensures var r := DecodeChar(s, c);
            var q := DecodeChar(r.0, d);
            DecodeAll(s, [c, d]) == (q.0, r.1 + q.1)
  {
    hide DecodeChar, DecodeAll;
    DecodeOne(s, c);
    DecodeOne(DecodeChar(s, c).0, d);
    DecodeConcat(s, [c], [d]);
    assert [c] + [d] == [c, d];
  }

  lemma DecodeFour(s: Decoding, code: string)
    requires s.Valid() && |code| == 4
    ensures var r := DecodeChar(s, code[0]);
            var q := DecodeChar(r.0, code[1]);
            var p := DecodeChar(q.0, code[2]);
            var o := DecodeChar(p.0, code[3]);
            DecodeAll(s, code) == (o.0, r.1 + q.1 + p.1 + o.1)
  {
    hide DecodeChar, DecodeAll;
    DecodeTwo(s, code[0], code[1]);
    var m := DecodeAll(s, [code[0], code[1]]);
    DecodeTwo(m.0, code[2], code[3]);
    DecodeConcat(s, [code[0], code[1]], [code[2], code[3]]);
    assert [code[0], code[1]] + [code[2], code[3]] == code;
    var r := DecodeChar(s, code[0]);
    var q := DecodeChar(r.0, code[1]);
    var p := DecodeChar(q.0, code[2]);
    var o := DecodeChar(p.0, code[3]);
    assert r.1 + q.1 + (p.1 + o.1) == r.1 + q.1 + p.1 + o.1;
  }

  /** What the characters of a quantum do, one by one. */
  lemma DecodeDigits(x: Octet, y: Octet, z: Octet)
    ensures DecodeChar(DECODE_START, EncodeValue(x / 4)) == (Decoding(StepQ, x / 4 * 4), [])
    ensures DecodeChar(Decoding(StepQ, x / 4 * 4), EncodeValue(x % 4 * 16 + y / 16))
            == (Decoding(StepR, y / 16 * 16), [x])
    ensures DecodeChar(Decoding(StepR, y / 16 * 16), EncodeValue(y % 16 * 4 + z / 64))
            == (Decoding(StepS, z / 64 * 64), [y])
    ensures DecodeChar(Decoding(StepS, z / 64 * 64), EncodeValue(z % 64)) == (DECODE_START, [z])
  {
    hide EncodeValue, DecodeChar;
    DecodeEncoded(DECODE_START, x / 4);
    DecodeEncoded(Decoding(StepQ, x / 4 * 4), x % 4 * 16 + y / 16);
    assert x / 4 * 4 + (x % 4 * 16 + y / 16) / 16 == x;
    DecodeEncoded(Decoding(StepR, y / 16 * 16), y % 16 * 4 + z / 64);
    assert y / 16 * 16 + (y % 16 * 4 + z / 64) / 4 == y;
    DecodeEncoded(Decoding(StepS, z / 64 * 64), z % 64);
  }

  lemma DecodeEncoded(s: Decoding, v: Sextet)
    requires s.Valid()
    ensures DecodeChar(s, EncodeValue(v)) == DecodeBits(s, v)
  {
    ValueRoundTrip(v);
    hide EncodeValue, DecodeValue;
  }

  lemma PaddingIsNothing(s: Decoding)
    requires s.Valid()
    ensures DecodeChar(s, '=') == (s, [])
  {
  }

  /** Four characters of a group give back its three bytes. */
  lemma DecodeQuantum(x: Octet, y: Octet, z: Octet)
    ensures DecodeAll(DECODE_START, Quantum(x, y, z)) == (DECODE_START, [x, y, z])
  {
    hide EncodeValue, DecodeChar, DecodeAll, Quantum;
    QuantumDigits(x, y, z);
    DecodeDigits(x, y, z);
    DecodeFour(DECODE_START, Quantum(x, y, z));
    assert [] + [x] + [y] + [z] == [x, y, z];
  }

  /** A padded last group gives back its bytes; the bits begun are 0. */
  lemma DecodePadded(rest: seq<Octet>)
    requires |rest| < 3
    ensures DecodeAll(DECODE_START, Rfc4648(rest)).1 == rest
  {
    hide EncodeValue, DecodeChar, DecodeAll, Quantum;
    if |rest| == 0 {
      DecodeNothing();
    } else {
      var y := if |rest| == 2 then rest[1] else 0;
      QuantumDigits(rest[0], y, 0);
      DecodeDigits(rest[0], y, 0);
      PaddingIsNothing(Decoding(StepR, y / 16 * 16));
      PaddingIsNothing(Decoding(StepS, 0));
      DecodeFour(DECODE_START, Rfc4648(rest));
    }
  }

  lemma DecodeNothing()
    ensures DecodeAll(DECODE_START, "") == (DECODE_START, [])
  {
  }

  lemma {:induction false} DecodeGroups(data: seq<Octet>)
    requires |data| % 3 == 0
    ensures DecodeAll(DECODE_START, Rfc4648(data)) == (DECODE_START, data)
  {
    hide DecodeAll, Quantum;
    if data == [] {
      DecodeNothing();
    } else {
      var a, b := Quantum(data[0], data[1], data[2]), data[3..];
      DecodeQuantum(data[0], data[1], data[2]);
      DecodeGroups(b);
      DecodeConcat(DECODE_START, a, Rfc4648(b));
      assert data == [data[0], data[1], data[2]] + b;
    }
  }

  // ---------------------------------------------------------------- streams

  /** The plaintext in several calls of encode_block. */
  function EncodePieces(s: Encoding, pieces: seq<seq<Octet>>): (r: (Encoding, string))
    requires s.Valid()
    ensures r.0.Valid()
  {
    if pieces == [] then (s, "")
    else
      var r := EncodePieces(s, pieces[..|pieces| - 1]);
      var e := EncodeAll(r.0, pieces[|pieces| - 1]);
      (e.0, r.1 + e.1)
  }

  function DecodePieces(s: Decoding, pieces: seq<string>): (r: (Decoding, seq<Octet>))
    requires s.Valid()
    ensures r.0.Valid()
  {
    if pieces == [] then (s, [])
    else
      var r := DecodePieces(s, pieces[..|pieces| - 1]);
      var e := DecodeAll(r.0, pieces[|pieces| - 1]);
      (e.0, r.1 + e.1)
  }

  lemma {:induction false} EncodeCuts(s: Encoding, pieces: seq<seq<Octet>>)
    requires s.Valid()
    ensures EncodePieces(s, pieces) == EncodeAll(s, Flatten(pieces))
  {
    if pieces != [] {
      var n := |pieces| - 1;
      EncodeCuts(s, pieces[..n]);
      FlattenLast(pieces);
      EncodeConcat(s, Flatten(pieces[..n]), pieces[n]);
    }
  }

  lemma {:induction false} DecodeCuts(s: Decoding, pieces: seq<string>)
    requires s.Valid()
    ensures DecodePieces(s, pieces) == DecodeAll(s, Flatten(pieces))
  {
    if pieces != [] {
      var n := |pieces| - 1;
      DecodeCuts(s, pieces[..n]);
      FlattenLast(pieces);
      DecodeConcat(s, Flatten(pieces[..n]), pieces[n]);
    }
  }

  /** Any bytes, encoded in any pieces with any line length, come back from the encoded
      text decoded in any pieces. */
  lemma StreamingRoundTrip(plain: seq<seq<Octet>>, linelength: int, terminate: bool, code: seq<string>)
    requires var r := EncodePieces(Fresh(linelength), plain);
             Flatten(code) == r.1 + Ending(r.0) + Terminator(terminate)
    ensures DecodePieces(DECODE_START, code).1 == Flatten(plain)
  {
    hide EncodeAll, DecodeAll, Ending, Rfc4648, Wrap, EncodePieces, DecodePieces, Flatten;
    var data := Flatten(plain);
    EncodeCuts(Fresh(linelength), plain);
    DecodeCuts(DECODE_START, code);
    EncodeIsRfc4648(data, linelength);
    var whole := Rfc4648(Whole(data));
    var lines := Wrap(whole, Width(linelength));
    DecodeWrapped(DECODE_START, whole, Width(linelength));
    DecodeGroups(Whole(data));
    DecodeConcat(DECODE_START, lines, Rfc4648(Rest(data)));
    DecodePadded(Rest(data));
    WholeAndRest(data);
    DecodeTerminated(DECODE_START, lines + Rfc4648(Rest(data)), terminate);
  }

  lemma WholeAndRest(data: seq<Octet>)
    ensures Whole(data) + Rest(data) == data
  {
  }

  /** A line feed at the end decodes to nothing. */
  lemma DecodeTerminated(s: Decoding, code: string, terminate: bool)
    requires s.Valid()
    ensures DecodeAll(s, code + Terminator(terminate)).1 == DecodeAll(s, code).1
  {
    hide DecodeChar;
    if terminate {
      assert (code + "\n")[..|code|] == code;
      LineFeedIsNothing(DecodeAll(s, code).0);
      NothingMore(DecodeAll(s, code).1);
    } else {
      assert code + "" == code;
    }
  }

  // ---------------------------------------------------------------- the coroutines

  /** The text only grows. */
  lemma EncodePrefix(s: Encoding, data: seq<Octet>, k: nat)
    requires s.Valid() && k <= |data|
    ensures EncodeAll(s, data[..k]).1 <= EncodeAll(s, data).1
  {
    assert data[..k] + data[k..] == data;
    EncodeConcat(s, data[..k], data[k..]);
  }

  lemma DecodePrefix(s: Decoding, code: string, k: nat)
    requires s.Valid() && k <= |code|
    ensures DecodeAll(s, code[..k]).1 <= DecodeAll(s, code).1
  {
    assert code[..k] + code[k..] == code;
    DecodeConcat(s, code[..k], code[k..]);
  }

  class EncodeState {
    var step: EncodeStep
    var result: int
    var stepcount: int
    var linelength: int
    var nullTerminate: bool

    function State(): Encoding reads this { Encoding(step, result, stepcount, linelength) }

    /** init_encodestate, with setLineLength */
    constructor (linelength: int)
      ensures State() == Fresh(linelength) && !nullTerminate
    {
      step, result, stepcount, this.linelength, nullTerminate := StepA, 0, 0, linelength, false;
    }

    /** encode_block: goes on where the last call stopped, and stops where the input ends. */
    method EncodeBlock(plain: seq<Octet>, out: array<char>) returns (written: nat)
      requires State().Valid() && |EncodeAll(State(), plain).1| <= out.Length
      modifies this`step, this`result, this`stepcount, out
      ensures State().Valid()
      ensures written <= out.Length && (State(), out[..written]) == EncodeAll(old(State()), plain)
      ensures out[written..] == old(out[written..])
    {
      hide EncodeAll, EncodeValue;
      ghost var s0 := State();
      var p := 0;
      written := 0;
      EncodeNothing(s0);
      while p < |plain|
        invariant p <= |plain| && written <= out.Length && State().Valid()
        invariant (State(), out[..written]) == EncodeAll(s0, plain[..p])
        invariant out[written..] == old(out[written..])
      {
        EncodeSnoc(s0, plain, p);
        EncodePrefix(s0, plain, p + 1);
        ghost var text := out[..written];
        assert |text + EncodeByte(State(), plain[p]).1| <= out.Length;
        label L:
        var n := EncodeOne(plain[p], out, written);
        assert out[..n] == text + EncodeByte(old@L(State()), plain[p]).1;
        p, written := p + 1, n;
      }
      assert plain[..p] == plain;
    }

    /** One turn of the coroutine: the bits of a byte, from the step it stopped at. */
    method EncodeOne(fragment: Octet, out: array<char>, at: nat) returns (codechar: nat)
      requires State().Valid() && at + |EncodeByte(State(), fragment).1| <= out.Length
      modifies this`step, this`result, this`stepcount, out
      ensures var e := EncodeByte(old(State()), fragment);
              && State() == e.0 && codechar == at + |e.1|
              && out[..codechar] == old(out[..at]) + e.1 && out[codechar..] == old(out[codechar..])
    {
      hide EncodeValue;
      codechar := at;
      if step.StepA? {
        result := fragment / 4;
        out[codechar] := EncodeValue(result);
        codechar := codechar + 1;
        result := fragment % 4 * 16;
        step := StepB;
      } else if step.StepB? {
        result := result + fragment / 16;
        out[codechar] := EncodeValue(result);
        codechar := codechar + 1;
        result := fragment % 16 * 4;
        step := StepC;
      } else {
        result := result + fragment / 64;
        out[codechar] := EncodeValue(result);
        codechar := codechar + 1;
        result := fragment % 64;
        out[codechar] := EncodeValue(result);
        codechar := codechar + 1;
        step := StepA;
        if linelength != 0 {
          stepcount := stepcount + 1;
          if stepcount == linelength / 4 {
            out[codechar] := '\n';
            codechar := codechar + 1;
            stepcount := 0;
          }
        }
      }
    }

    /** encode_blockend */
    method EncodeBlockEnd(out: array<char>) returns (written: nat)
      requires State().Valid() && |Ending(State())| + |Terminator(nullTerminate)| <= out.Length
      modifies out
      ensures written <= out.Length && out[..written] == Ending(State()) + Terminator(nullTerminate)
    {
      hide EncodeValue;
      written := 0;
      if !step.StepA? {
        out[0] := EncodeValue(result);
        out[1] := '=';
        written := 2;
        if step.StepB? {
          out[2] := '=';
          written := 3;
        }
      }
      if nullTerminate {
        out[written] := '\n';
        written := written + 1;
      }
    }
  }

  lemma EncodeNothing(s: Encoding)
    requires s.Valid()
    ensures EncodeAll(s, []) == (s, "")
  {
  }

  lemma DecodeCharIs(s: Decoding, c: char)
    requires s.Valid()
    ensures DecodeChar(s, c) == if DecodeValue(c) < 0 then (s, []) else DecodeBits(s, DecodeValue(c))
  {
  }

  lemma NothingMore(bytes: seq<Octet>)
    ensures bytes + [] == bytes
  {
  }

  class DecodeState {
    var step: DecodeStep
    var plainchar: int

    /** The byte begun matters only where one is begun. */
    function State(): Decoding
      reads this
    {
      if step.StepP? then DECODE_START else Decoding(step, plainchar)
    }

    predicate Valid() reads this { 0 <= plainchar < 256 && State().Valid() }

    /** init_decodestate */
    constructor ()
      ensures Valid() && State() == DECODE_START
    {
      step, plainchar := StepP, 0;
    }

    /** decode_block: the byte begun is kept in the place behind the finished ones. */
    method DecodeBlock(code: string, out: array<Octet>) returns (written: nat)
      requires Valid() && |DecodeAll(State(), code).1| < out.Length
      modifies this, out
      ensures Valid() && written < out.Length
      ensures (State(), out[..written]) == DecodeAll(old(State()), code)
      ensures out[written + 1..] == old(out[written + 1..])
    {
      hide DecodeAll, DecodeValue, DecodeChar, DecodeBits;
      ghost var s0 := State();
      out[0] := plainchar;
      var p := 0;
      written := 0;
      DecodeEmpty(s0);
      while p < |code|
        invariant p <= |code| && written < out.Length && Valid()
        invariant State() == DecodeAll(s0, code[..p]).0 && out[..written] == DecodeAll(s0, code[..p]).1
        invariant !step.StepP? ==> out[written] == plainchar
        invariant forall i :: written < i < out.Length ==> out[i] == old(out[i])
      {
        DecodeSnoc(s0, code, p);
        DecodePrefix(s0, code, p + 1);
        DecodeCharIs(State(), code[p]);
        ghost var bytes, e := out[..written], DecodeChar(State(), code[p]);
        assert DecodeAll(s0, code[..p + 1]).0 == e.0 && DecodeAll(s0, code[..p + 1]).1 == bytes + e.1;
        var fragment := DecodeValue(code[p]);
        if fragment >= 0 {
          assert e == DecodeBits(State(), fragment);
          assert |bytes + e.1| < out.Length;
          written := DecodeOne(fragment, out, written);
          assert out[..written] == bytes + e.1;
        } else {
          assert e == (State(), []);
          NothingMore(bytes);
        }
        assert State() == e.0 && out[..written] == bytes + e.1;
        p := p + 1;
      }
      assert code[..p] == code;
      plainchar := out[written];
    }

    /** One turn of the coroutine; the byte begun is out[at]. */
    method DecodeOne(fragment: Sextet, out: array<Octet>, at: nat) returns (n: nat)
      requires Valid() && at < out.Length && (!step.StepP? ==> out[at] == plainchar)
      requires at + |DecodeBits(State(), fragment).1| < out.Length
      modifies this, out
      ensures Valid() && n < out.Length && (!step.StepP? ==> out[n] == plainchar)
      ensures var e := DecodeBits(old(State()), fragment);
              && State() == e.0 && n == at + |e.1|
              && out[..n] == old(out[..at]) + e.1
      ensures forall i :: n < i < out.Length ==> out[i] == old(out[i])
    {
      n := at;
      if step.StepP? {
        out[n] := fragment * 4;
        step := StepQ;
      } else if step.StepQ? {
        out[n] := out[n] + fragment / 16;
        n := n + 1;
        out[n] := fragment % 16 * 16;
        step := StepR;
      } else if step.StepR? {
        out[n] := out[n] + fragment / 4;
        n := n + 1;
        out[n] := fragment % 4 * 64;
        step := StepS;
      } else {
        out[n] := out[n] + fragment;
        n := n + 1;
        step := StepP;
      }
      plainchar := out[n];
    }
  }

  lemma DecodeEmpty(s: Decoding)
    requires s.Valid()
    ensures DecodeAll(s, "") == (s, [])
  {
  }
}
