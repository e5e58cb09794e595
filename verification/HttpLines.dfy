/** What the parser accepts as a header line, exactly: what can be printed from legal parts. */
module HttpLines {
  import opened Options
  import opened HttpTypes
  import opened HttpStep
  import opened HttpInvariant
  import opened HttpRun
  import opened HttpReads
  import opened HttpNames
  import opened HttpValues
  import opened HttpBodies
  import opened HttpHeads

  /** A line without its end. */
  predicate IsBare(l: string) { CR !in l && LF !in l }

  /** What was read without an error began with what was read without an error. */
  lemma RunsBoth(cfg: Settings, p: Parser, a: string, b: string)
    requires Run(cfg, p, a + b).Running?
    ensures Run(cfg, p, a).Running? && Run(cfg, Run(cfg, p, a).p, b) == Run(cfg, p, a + b)
  {
    hide Run;
    RunAppend(cfg, p, a, b);
  }

  lemma EolBegins(eol: string)
    requires IsEol(eol)
    ensures eol != "" && (eol[0] == CR || eol[0] == LF) && eol == [eol[0]] + eol[1..]
  {
  }

  /** A line end that its first byte fails. */
  lemma EolRefused(cfg: Settings, p: Parser, eol: string)
    requires IsEol(eol) && (ParsingHeader(p.f.state) ==> Room(cfg, p, 1))
    requires Step(cfg, Counted(p), CR).Error? && Step(cfg, Counted(p), LF).Error?
    ensures Run(cfg, p, eol).Failed?
  {
    hide Run, Step;
    EolBegins(eol);
    ReadsNothing(cfg, p);
    FailsByte(cfg, p, "", p, eol[0]);
    assert "" + [eol[0]] == [eol[0]] && eol[..1] == [eol[0]];
    RunStays(cfg, p, eol, 1);
  }

  /** A byte that fails, whatever follows. */
  lemma ByteRefused(cfg: Settings, p: Parser, text: string)
    requires text != "" && (ParsingHeader(p.f.state) ==> Room(cfg, p, 1)) && Step(cfg, Counted(p), text[0]).Error?
    ensures Run(cfg, p, text).Failed?
  {
    hide Run, Step;
    ReadsNothing(cfg, p);
    FailsByte(cfg, p, "", p, text[0]);
    assert "" + [text[0]] == [text[0]] && text[..1] == [text[0]];
    RunStays(cfg, p, text, 1);
  }

  /** How many characters stand in front of the first `ch`. */
  function Before(l: string, ch: char): (n: nat)
    ensures n <= |l| && ch !in l[..n] && (n < |l| ==> l[n] == ch) && (n == |l| <==> ch !in l)
  {
    if l == "" || l[0] == ch then 0
    else
      var n := 1 + Before(l[1..], ch);
      assert l == [l[0]] + l[1..] && l[..n] == [l[0]] + l[1..][..n - 1];
      n
  }

  /** How many spaces the text begins with. */
  function Spaces(l: string): (n: nat)
    ensures n <= |l| && (forall i :: 0 <= i < n ==> l[i] == ' ') && (n < |l| ==> l[n] != ' ')
  {
    if l == "" || l[0] != ' ' then 0 else 1 + Spaces(l[1..])
  }

  // ---------------------------------------------------------------- the name

  /** How many characters of a token the text begins with. */
  function Tokens(l: string): (n: nat)
    ensures n <= |l| && (forall i :: 0 <= i < n ==> TokenChar(l[i]) != '\0') && (n < |l| ==> TokenChar(l[n]) == '\0')
  {
    if l == "" || TokenChar(l[0]) == '\0' then 0 else 1 + Tokens(l[1..])
  }

  /** A byte in a header name, or at its place, that is none of a token. */
  lemma StepOfNoToken(cfg: Settings, p: Parser, ch: char)
    requires TokenChar(ch) == '\0' && (p.f.state == HeaderField || p.f.state == HeaderFieldStart)
    requires p.f.state == HeaderField ==> ch != ':'
    requires p.f.state == HeaderFieldStart ==> ch != CR && ch != LF
    ensures Step(cfg, p, ch) == Error(InvalidHeaderToken)
  {
  }

  lemma EolIsNoToken()
    ensures TokenChar(CR) == '\0' && TokenChar(LF) == '\0' && TokenChar(':') == '\0'
  {
  }

  /** A header name ends at its colon; any other byte that is none of a token is refused there. */
  lemma NameRefused(cfg: Settings, p: Parser, name: string, ch: char)
    requires p.f.state == HeaderFieldStart && (name == "" || IsToken(name)) && Room(cfg, p, |name| + 1)
    requires TokenChar(ch) == '\0' && (if name == "" then ch != CR && ch != LF else ch != ':')
    ensures Run(cfg, p, name + [ch]) == Failed(InvalidHeaderToken, |name|)
  {
    hide Run, Step, TokenChar;
    if name == "" {
      ReadsNothing(cfg, p);
      StepOfNoToken(cfg, Counted(p), ch);
      FailsByte(cfg, p, "", p, ch);
    } else {
      NameReads(cfg, p, name);
      var q := AfterName(p, name);
      StepOfNoToken(cfg, Counted(q), ch);
      FailsByte(cfg, p, name, q, ch);
    }
  }

  lemma NameTaken(cfg: Settings, p: Parser, l: string, eol: string) returns (name: string, rest: string)
    requires p.f.state == HeaderFieldStart && l != "" && IsBare(l) && IsEol(eol) && Room(cfg, p, |l + eol|)
    requires Run(cfg, p, l + eol).Running?
    ensures l == name + ":" + rest && IsToken(name)
    ensures Run(cfg, AfterColon(p, name), rest + eol) == Run(cfg, p, l + eol)
  {
    hide Run, Step, TokenChar, AfterColon;
    var n := Tokens(l);
    name := l[..n];
    EolIsNoToken();
    EolBegins(eol);
    var ch := (l + eol)[n];
    if n == 0 || ch != ':' {
      NameRefused(cfg, p, name, ch);
      assert (l + eol)[..n + 1] == name + [ch];
      RunStays(cfg, p, l + eol, n + 1);
    }
    rest := l[n + 1..];
    assert l + eol == name + ":" + (rest + eol);
    NameColonReads(cfg, p, name);
    RunsBoth(cfg, p, name + ":", rest + eol);
  }

  // ---------------------------------------------------------------- the value

  function Blanks(l: string): (n: nat)
    ensures n <= |l| && IsGap(l[..n]) && (n < |l| ==> l[n] != ' ' && l[n] != '\t')
  {
    if l == "" || (l[0] != ' ' && l[0] != '\t') then 0
    else
      var n := 1 + Blanks(l[1..]);
      assert forall i :: 0 < i < n ==> l[i] == l[1..][..n - 1][i - 1];
      n
  }

  lemma StepOfValueByte(cfg: Settings, p: Parser, ch: char)
    requires p.f.state == HeaderValue && ch != CR && ch != LF
    ensures Step(cfg, p, ch) == StepInValue(p.f, ch)
    ensures !IsHeaderChar(ch) ==> Step(cfg, p, ch) == Error(InvalidHeaderToken)
    ensures Step(cfg, p, ch).Error? || (Step(cfg, p, ch).Break? && Step(cfg, p, ch).f.state == HeaderValue
                                        && Step(cfg, p, ch).f.nread == p.f.nread)
  {
    hide ValueStep, IsHeaderChar;
  }

  lemma StepOfFirstByte(cfg: Settings, p: Parser, ch: char)
    requires p.f.state == HeaderValueDiscardWs && ch != CR && ch != LF && ch != ' ' && ch != '\t'
    ensures Step(cfg, p, ch) == StepValueStart(p.f, ch)
    ensures Step(cfg, p, ch).Error? || (Step(cfg, p, ch).Break? && Step(cfg, p, ch).f.state == HeaderValue
                                        && Step(cfg, p, ch).f.nread == p.f.nread)
  {
    hide ValueStart;
  }

  /** Whatever the header, its value has only the bytes of a value. */
  lemma {:induction false} ValueTaken(cfg: Settings, p: Parser, v: string)
    requires p.f.state == HeaderValueDiscardWs && v != "" && IsBare(v) && v[0] != ' ' && v[0] != '\t'
    requires Room(cfg, p, |v|) && Run(cfg, p, v).Running?
    ensures IsValue(v)
    ensures var q := Run(cfg, p, v).p; q.f.state == HeaderValue && q.f.nread == p.f.nread + |v|
  {
    hide Run, Step, IsHeaderChar;
    var n := |v| - 1;
    var u, ch := v[..n], v[n];
    assert v == u + [ch];
    if n == 0 {
      ReadsNothing(cfg, p);
      StepOfFirstByte(cfg, Counted(p), ch);
      if Step(cfg, Counted(p), ch).Error? {
        FailsByte(cfg, p, u, p, ch);
      } else {
        ReadsByte(cfg, p, u, p, ch);
      }
    } else {
      RunsBoth(cfg, p, u, [ch]);
      assert u[0] == v[0];
      ValueTaken(cfg, p, u);
      var q := Run(cfg, p, u).p;
      StepOfValueByte(cfg, Counted(q), ch);
      if Step(cfg, Counted(q), ch).Error? {
        FailsByte(cfg, p, u, q, ch);
      } else {
        ReadsByte(cfg, p, u, q, ch);
      }
    }
  }

  // ---------------------------------------------------------------- the value of a Content-Length header

  predicate AllSpaces(s: string) { forall i :: 0 <= i < |s| ==> s[i] == ' ' }

  /** Digits of a value that is not too large, and spaces behind them. */
  predicate IsLengthValue(v: string) {
    var n := Nums(v);
    0 < n && Decimal(v[..n]) <= MAX_LENGTH && AllSpaces(v[n..])
  }

  function Nums(l: string): (n: nat)
    ensures n <= |l| && (forall i :: 0 <= i < n ==> IsNum(l[i])) && (n < |l| ==> !IsNum(l[n]))
  {
    if l == "" || !IsNum(l[0]) then 0 else 1 + Nums(l[1..])
  }

  lemma StepOfLengthEnd(cfg: Settings, p: Parser, ch: char)
    requires p.f.state == HeaderValue && ch != CR && ch != LF
    requires (p.f.headerState == ContentLengthNum && !IsNum(ch)) || p.f.headerState == ContentLengthWs
    ensures if ch == ' ' then
              Step(cfg, p, ch) == Break(p.f.(headerState := ContentLengthWs), Some(Data(Value, [ch])))
            else Step(cfg, p, ch).Error?
  {
    StepOfValueByte(cfg, p, ch);
  }

  /** Behind the digits, spaces are accepted and nothing else. */
  lemma {:induction false} LengthEnds(cfg: Settings, p: Parser, t: string)
    requires p.f.state == HeaderValue && p.f.headerState == ContentLengthNum && IsBare(t) && Room(cfg, p, |t|)
    requires t != "" ==> !IsNum(t[0])
    ensures Run(cfg, p, t).Running? <==> AllSpaces(t)
    ensures AllSpaces(t) ==>
              var q := Run(cfg, p, t).p;
              && q.f == p.f.(headerState := if t == "" then ContentLengthNum else ContentLengthWs,
                             nread := p.f.nread + |t|)
  {
    hide Run, Step;
    ReadsNothing(cfg, p);
    if t != "" {
      var n := |t| - 1;
      var u, ch := t[..n], t[n];
      assert t == u + [ch];
      LengthEnds(cfg, p, u);
      if AllSpaces(u) {
        var q := Run(cfg, p, u).p;
        StepOfLengthEnd(cfg, Counted(q), ch);
        if ch == ' ' {
          ReadsByte(cfg, p, u, q, ch);
        } else {
          FailsByte(cfg, p, u, q, ch);
        }
      } else {
        RunAppend(cfg, p, u, [ch]);
      }
    }
  }

  lemma LengthNeedsDigit(cfg: Settings, p: Parser, ch: char)
    requires ExpectsLength(p) && !IsNum(ch) && ch != CR && ch != LF && ch != ' ' && ch != '\t'
    ensures Step(cfg, p, ch).Error?
  {
    StepOfFirstByte(cfg, p, ch);
  }

  /** The value of a first Content-Length header is accepted exactly if it is a length. */
  lemma LengthTaken(cfg: Settings, p: Parser, v: string)
    requires ExpectsLength(p) && v != "" && IsBare(v) && v[0] != ' ' && v[0] != '\t' && Room(cfg, p, |v|)
    ensures Run(cfg, p, v).Running? <==> IsLengthValue(v)
    ensures IsLengthValue(v) ==>
              var q := Run(cfg, p, v).p;
              && q.f.state == HeaderValue && q.f.contentLength == Decimal(v[..Nums(v)]) && q.f.nread == p.f.nread + |v|
  {
    hide Run, Step, Decimal, AllSpaces;
    var n := Nums(v);
    if n == 0 {
      LengthNeedsDigit(cfg, Counted(p), v[0]);
      ByteRefused(cfg, p, v);
    } else {
      var digits := v[..n];
      assert v == digits + v[n..];
      LengthAccepted(cfg, p, digits);
      if Decimal(digits) <= MAX_LENGTH {
        var q := AfterLength(p, digits);
        LengthEnds(cfg, q, v[n..]);
        RunAppend(cfg, p, digits, v[n..]);
      } else {
        RunStays(cfg, p, v, n);
      }
    }
  }

  // ---------------------------------------------------------------- header lines

  /** The value of a Content-Length header is empty or a length. */
  predicate IsHeaderLine(h: Header) {
    && IsToken(h.name) && IsGap(h.gap) && IsValue(h.value)
    && (Lowered(h.name) == CONTENT_LENGTH && h.value != "" ==> IsLengthValue(h.value))
  }

  lemma AfterColonTells(p: Parser, h: Header)
    requires IsToken(h.name)
    ensures h.name != ""
    ensures var q := AfterGap(p, h);
            && q.f.state == HeaderValueDiscardWs && q.f.nread == p.f.nread + |h.name| + 1 + |h.gap|
            && q.f.flags == p.f.flags && q == AfterColon(p, h.name).(f := q.f)
            && (Lowered(h.name) == CONTENT_LENGTH <==> q.f.headerState == ContentLengthName)
            && (Lowered(h.name) != CONTENT_LENGTH ==> TakesAny(q.f.headerState))
  {
    hide Matched, Lowered;
    MatchedIsLookup(Lowered(h.name));
    MatchedTells(Lowered(h.name));
  }

  /** Behind the colon, white space and a value. */
  lemma RestTaken(cfg: Settings, p: Parser, name: string, rest: string, eol: string) returns (h: Header)
    requires IsToken(name) && ContentLength !in p.f.flags && IsBare(rest) && IsEol(eol)
    requires Room(cfg, p, |name| + 1 + |rest + eol|) && Run(cfg, AfterColon(p, name), rest + eol).Running?
    ensures h.name == name && h.gap + h.value == rest && IsHeaderLine(h)
  {
    hide Run, Lowered, IsToken, IsValue, IsLengthValue, TakesAny, IsGap, Matched, Emit;
    var k := Blanks(rest);
    h := Header(name, rest[..k], rest[k..]);
    AfterColonTells(p, h);
    var a, b := AfterColon(p, name), AfterGap(p, h);
    ReadsNothing(cfg, a);
    GapReads(cfg, a, "", a, h.gap);
    assert "" + h.gap == h.gap && rest + eol == h.gap + (h.value + eol);
    RunsBoth(cfg, a, h.gap, h.value + eol);
    RunsBoth(cfg, b, h.value, eol);
    if h.value == "" {
      NoValue();
    } else {
      assert h.value[0] == rest[k];
      ValueTaken(cfg, b, h.value);
      if Lowered(h.name) == CONTENT_LENGTH {
        LengthTaken(cfg, b, h.value);
      }
    }
  }

  lemma LineIsHeader(cfg: Settings, p: Parser, l: string, eol: string) returns (h: Header)
    requires p.f.state == HeaderFieldStart && ContentLength !in p.f.flags
    requires l != "" && IsBare(l) && IsEol(eol) && Room(cfg, p, |l + eol|) && Run(cfg, p, l + eol).Running?
    ensures IsHeaderLine(h) && HeaderLine(h, eol) == l + eol
  {
    hide Run, IsHeaderLine, IsToken, AfterColon, IsEol;
    var name, rest := NameTaken(cfg, p, l, eol);
    h := RestTaken(cfg, p, name, rest, eol);
    assert HeaderLine(h, eol) == name + ":" + rest + eol;
  }

  lemma NoValue()
    ensures IsValue("")
  {
  }

  lemma HeaderLineReads(cfg: Settings, p: Parser, h: Header, eol: string)
    requires p.f.state == HeaderFieldStart && ContentLength !in p.f.flags
    requires IsHeaderLine(h) && IsEol(eol) && Room(cfg, p, |HeaderLine(h, eol)|)
    ensures Run(cfg, p, HeaderLine(h, eol)).Running?
  {
    hide Run, Lowered, IsToken, IsLengthValue, TakesAny, IsGap, HeaderLine, IsEol, Emit, ValueRead;
    LineLength(h, eol);
    AfterColonTells(p, h);
    var b := AfterGap(p, h);
    if h.value == "" {
      ReadsNothing(cfg, b);
      ValueLineReads(cfg, p, h, eol, b);
    } else if Lowered(h.name) == CONTENT_LENGTH {
      LengthTaken(cfg, b, h.value);
      ValueLineReads(cfg, p, h, eol, Run(cfg, b, h.value).p);
    } else {
      ValueReads(cfg, b, h.value);
      ValueLineReads(cfg, p, h, eol, AfterValue(b, h.value));
    }
  }

  /** Exactly what can be printed from legal parts is accepted as a header line. */
  lemma HeaderLineAccepted(cfg: Settings, p: Parser, l: string, eol: string)
    requires p.f.state == HeaderFieldStart && ContentLength !in p.f.flags
    requires l != "" && IsBare(l) && IsEol(eol) && Room(cfg, p, |l + eol|)
    ensures Run(cfg, p, l + eol).Running? <==> exists h :: IsHeaderLine(h) && HeaderLine(h, eol) == l + eol
  {
    hide Run, IsHeaderLine, HeaderLine, IsEol;
    if Run(cfg, p, l + eol).Running? {
      var h := LineIsHeader(cfg, p, l, eol);
    } else {
      forall h | IsHeaderLine(h) && HeaderLine(h, eol) == l + eol ensures false {
        HeaderLineReads(cfg, p, h, eol);
      }
    }
  }
}
