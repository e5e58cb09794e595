/** The head of a message behind its first line, and the body that follows: printed header lines
    and bodies are read back, whatever the first line was.
 */
module HttpHeads {
  import opened Options
  import opened HttpTypes
  import opened HttpStep
  import opened HttpInvariant
  import opened HttpRun
  import opened HttpAgree
  import opened HttpReads
  import opened HttpNames
  import opened HttpValues
  import opened HttpBodies
  import opened HttpLimit

  /** A header line; `gap` is the white space behind the colon. */
  datatype Header = Header(name: string, gap: string, value: string)

  /** The body of a message, with the header that announces it. */
  datatype Content =
    | NoContent
    | Fixed(length: Header, data: string)
    | Chunks(coding: Header, chunks: seq<Chunk>, last: Chunk)

  predicate IsGap(gap: string) { forall i :: 0 <= i < |gap| ==> gap[i] == ' ' || gap[i] == '\t' }

  /** Empty lines in front of a message. */
  predicate IsLead(lead: string) { forall i :: 0 <= i < |lead| ==> lead[i] == CR || lead[i] == LF }

  /** One space or more. */
  predicate IsSpace(s: string) { s != "" && forall i :: 0 <= i < |s| ==> s[i] == ' ' }

  /** The lines of a head may end in a line feed alone. */
  predicate IsEol(eol: string) { eol == CRLF || eol == "\n" }

  // ---------------------------------------------------------------- single bytes

  /** A byte that changes the fields to `f` and makes no callback. */
  lemma Silent(cfg: Settings, p: Parser, a: string, q: Parser, ch: char, f: Fields)
    requires Reads(cfg, p, a, q) && ParsingHeader(q.f.state) && Room(cfg, q, 1)
    requires Step(cfg, Counted(q), ch) == Break(f, None)
    ensures Reads(cfg, p, a + [ch], Parser(f, q.trace))
  {
    hide Run, Step;
    ReadsByte(cfg, p, a, q, ch);
  }

  lemma RunThen(cfg: Settings, p: Parser, a: string, q: Parser, b: string)
    requires Reads(cfg, p, a, q)
    ensures Run(cfg, p, a + b) == Shift(Run(cfg, q, b), |a|)
  {
    hide Run;
    RunAppend(cfg, p, a, b);
  }

  // ---------------------------------------------------------------- header lines

  /** The parser once a header that was just read is finished: an empty value is handed over,
      and the flag of the header is set. */
  function Settled(p: Parser): Parser {
    if p.f.state == HeaderValueLws || p.f.state == HeaderValueDiscardLws then
      Parser(p.f.(state := HeaderFieldStart, flags := p.f.flags + FinishedFlag(p.f.headerState)),
             if p.f.state == HeaderValueLws then p.trace else Emit(p.trace, Data(Value, "")))
    else p
  }

  /** Behind a header line that may be finished. */
  predicate MayFinish(p: Parser) {
    p.f.state == HeaderValueLws || (p.f.state == HeaderValueDiscardLws && p.f.headerState != ContentLengthName)
  }

  lemma SettledExec(cfg: Settings, p: Parser, ch: char, at: nat)
    requires MayFinish(p) && ch != ' ' && ch != '\t'
    ensures Exec(cfg, p, ch, at) == Exec(cfg, Settled(p), ch, at)
  {
    hide Exec, Step, Emit;
    StepOfValue(cfg, p, ch);
    ExecOnce(cfg, p, ch, at);
  }

  /** A text that begins in the first column. */
  predicate InFirstColumn(text: string) { text != "" && text[0] != ' ' && text[0] != '\t' }

  /** What follows a header line that is not folded first finishes that header. */
  lemma SettledRun(cfg: Settings, p: Parser, text: string)
    requires MayFinish(p) && Room(cfg, p, 1) && InFirstColumn(text)
    ensures Run(cfg, p, text) == Run(cfg, Settled(p), text)
  {
    hide Exec, Run, FinishedFlag, Emit;
    var first, rest := [text[0]], text[1..];
    assert text == first + rest;
    RunAppend(cfg, p, first, rest);
    RunAppend(cfg, Settled(p), first, rest);
    RunOne(cfg, p, text[0]);
    RunOne(cfg, Settled(p), text[0]);
    assert Settled(Counted(p)) == Counted(Settled(p));
    SettledExec(cfg, Counted(p), text[0], 0);
  }

  lemma RunOne(cfg: Settings, p: Parser, ch: char)
    ensures Run(cfg, p, [ch]) == Byte(cfg, p, ch, 0)
  {
    hide Exec;
    assert [ch][..0] == "";
  }

  function HeaderLine(h: Header, eol: string): string { h.name + ":" + h.gap + h.value + eol }

  /** The white space behind the colon. */
  lemma {:induction false} GapReads(cfg: Settings, p: Parser, a: string, q: Parser, gap: string)
    requires Reads(cfg, p, a, q) && q.f.state == HeaderValueDiscardWs && IsGap(gap) && Room(cfg, q, |gap|)
    ensures Reads(cfg, p, a + gap, q.(f := q.f.(nread := q.f.nread + |gap|)))
    decreases |gap|
  {
    hide Run, Step;
    if gap == "" {
      assert a + gap == a;
    } else {
      var n := |gap| - 1;
      GapReads(cfg, p, a, q, gap[..n]);
      var r := q.(f := q.f.(nread := q.f.nread + n));
      StepOfValue(cfg, Counted(r), gap[n]);
      Silent(cfg, p, a + gap[..n], r, gap[n], q.f.(nread := q.f.nread + |gap|));
      assert a + gap[..n] + [gap[n]] == a + gap;
    }
  }

  lemma LineEndReads(cfg: Settings, p: Parser, a: string, q: Parser, eol: string)
    requires Reads(cfg, p, a, q) && (q.f.state == HeaderValue || q.f.state == HeaderValueDiscardWs)
    requires IsEol(eol) && Room(cfg, q, |eol|)
    ensures var s := if q.f.state == HeaderValue then HeaderValueLws else HeaderValueDiscardLws;
            Reads(cfg, p, a + eol, q.(f := q.f.(state := s, nread := q.f.nread + |eol|)))
  {
    hide Run, Step, Exec;
    var some := q.f.state == HeaderValue;
    var end := if some then HeaderValueLws else HeaderValueDiscardLws;
    if eol == CRLF {
      var f1 := q.f.(state := if some then HeaderAlmostDone
          else HeaderValueDiscardWsAlmostDone, nread := q.f.nread + 1);
      StepOfValue(cfg, Counted(q), CR);
      Silent(cfg, p, a, q, CR, f1);
      var r := Parser(f1, q.trace);
      StepOfValue(cfg, Counted(r), LF);
      Silent(cfg, p, a + [CR], r, LF, f1.(state := end, nread := q.f.nread + 2));
      assert a + CRLF == a + [CR] + [LF];
    } else if some {
      StepOfValue(cfg, Counted(q), LF);
      ReadsAgain(cfg, p, a, q, LF);
      var r := After(Counted(q), Step(cfg, Counted(q), LF));
      StepOfValue(cfg, r, LF);
      ExecOnce(cfg, r, LF, |a|);
      assert a + eol == a + [LF];
    } else {
      StepOfValue(cfg, Counted(q), LF);
      Silent(cfg, p, a, q, LF, q.f.(state := end, nread := q.f.nread + 1));
      assert a + eol == a + [LF];
    }
  }

  function HeaderEvents(h: Header): seq<Event> { [Data(Field, h.name), Data(Value, h.value)] }

  /** The parser after a header line whose value leaves it in the fields `f`. */
  function AfterHeader(p: Parser, h: Header, eol: string, f: Fields): Parser {
    Parser(f.(state := HeaderValueLws, nread := p.f.nread + |HeaderLine(h, eol)|),
           p.trace + HeaderEvents(h))
  }

  lemma EmitHeader(trace: seq<Event>, h: Header)
    requires !EndsWith(trace, Field)
    ensures Emit(trace, Data(Field, h.name)) == trace + [Data(Field, h.name)]
    ensures Emit(Emit(trace, Data(Field, h.name)), Data(Value, h.value)) == trace + HeaderEvents(h)
    ensures !EndsWith(trace + HeaderEvents(h), Field)
  {
    assert trace + [Data(Field, h.name)] + [Data(Value, h.value)] == trace + HeaderEvents(h);
  }

  lemma LineLength(h: Header, eol: string)
    ensures |HeaderLine(h, eol)| == |h.name| + 1 + |h.gap| + |h.value| + |eol|
  {
  }

  function AfterGap(p: Parser, h: Header): Parser
    requires h.name != ""
  {
    var a := AfterColon(p, h.name);
    a.(f := a.f.(nread := a.f.nread + |h.gap|))
  }

  /** A header line, given that its value is read behind the name, the colon and the gap. */
  lemma ValueLineReads(cfg: Settings, p: Parser, h: Header, eol: string, c: Parser)
    requires p.f.state == HeaderFieldStart && IsToken(h.name) && IsGap(h.gap) && IsEol(eol)
    requires Room(cfg, p, |h.name| + 1 + |h.gap|) && Reads(cfg, AfterGap(p, h), h.value, c)
    requires (c.f.state == HeaderValue || c.f.state == HeaderValueDiscardWs) && Room(cfg, c, |eol|)
    ensures var s := if c.f.state == HeaderValue then HeaderValueLws else HeaderValueDiscardLws;
            Reads(cfg, p, HeaderLine(h, eol), c.(f := c.f.(state := s, nread := c.f.nread + |eol|)))
  {
    hide Run, Step, Reads, Matched, Emit, IsGap, IsEol;
    NameColonReads(cfg, p, h.name);
    var a := AfterColon(p, h.name);
    GapReads(cfg, p, h.name + ":", a, h.gap);
    var b := AfterGap(p, h);
    ReadsThen(cfg, p, h.name + ":" + h.gap, b, h.value, c);
    LineEndReads(cfg, p, h.name + ":" + h.gap + h.value, c, eol);
  }

  // ---------------------------------------------------------------- headers that do not frame the body

  predicate IsConnection(name: string) { Lowered(name) == CONNECTION || Lowered(name) == PROXY_CONNECTION }

  /** Any header but one that frames the body. */
  predicate IsHeader(h: Header) {
    && IsToken(h.name) && IsGap(h.gap) && IsValue(h.value)
    && Lowered(h.name) != CONTENT_LENGTH && (Lowered(h.name) == TRANSFER_ENCODING ==> !IsWord(h.value, CHUNKED))
  }

  /** The flags a header sets. */
  function HeaderFlags(h: Header): set<Flag> {
    if h.value == "" then {}
    else if Lowered(h.name) == UPGRADE then {Upgrade}
    else if IsConnection(h.name) then ListFlags(Items(h.value))
    else {}
  }

  predicate IsNameState(hs: HeaderState) {
    || hs == General || hs == C || hs == CO || hs == CON || hs == MatchingConnection || hs == MatchingProxyConnection
    || hs == MatchingContentLength || hs == MatchingTransferEncoding || hs == MatchingUpgrade
    || hs == ConnectionName || hs == ContentLengthName || hs == TransferEncodingName || hs == UpgradeName
  }

  /** What the matchers know after the name of a header that does not frame the body. */
  lemma NameState(h: Header)
    requires IsHeader(h)
    ensures h.name != "" && IsToken(h.name) && IsGap(h.gap) && IsValue(h.value)
    ensures var hs := Matched(Lowered(h.name)).0;
            && IsNameState(hs) && FinishedFlag(hs) == {} && TakesAny(hs)
            && (hs == ConnectionName <==> IsConnection(h.name)) && (hs == UpgradeName <==> Lowered(h.name) == UPGRADE)
            && (hs == TransferEncodingName <==> Lowered(h.name) == TRANSFER_ENCODING)
  {
    hide Lowered, IsValue, IsGap, IsWord, Matched, Unknown, PartOf;
    MatchedIsLookup(Lowered(h.name));
    MatchedTells(Lowered(h.name));
  }

  /** The parser behind a header line that is not finished yet. */
  function AfterLine(p: Parser, h: Header, eol: string): Parser
    requires IsHeader(h)
  {
    NameState(h);
    var b := AfterGap(p, h);
    var c := if h.value == "" then b else AfterValue(b, h.value);
    c.(f := c.f.(state := if h.value == "" then HeaderValueDiscardLws else HeaderValueLws, nread := c.f.nread + |eol|))
  }

  lemma HeaderReads(cfg: Settings, p: Parser, h: Header, eol: string)
    requires p.f.state == HeaderFieldStart && IsHeader(h) && IsEol(eol) && Room(cfg, p, |HeaderLine(h, eol)|)
    ensures Reads(cfg, p, HeaderLine(h, eol), AfterLine(p, h, eol))
  {
    hide Run, Step, Matched, Lowered, IsHeader, IsToken, IsValue, IsGap, IsEol, Reads, Emit, ValueRead, TakesAny,
      HeaderLine, IsNameState, FinishedFlag, IsConnection;
    NameState(h);
    LineLength(h, eol);
    var b := AfterGap(p, h);
    if h.value == "" {
      ReadsNothing(cfg, b);
      ValueLineReads(cfg, p, h, eol, b);
    } else {
      ValueReads(cfg, b, h.value);
      ValueLineReads(cfg, p, h, eol, AfterValue(b, h.value));
    }
  }

  /** What a value leaves in the matchers: in the end, the flags of its header. */
  lemma ValueFlags(h: Header, s: ValueState)
    requires IsHeader(h) && h.value != "" && s.hs == Matched(Lowered(h.name)).0 && TakesAny(s.hs)
    ensures var r := ValueRead(s, h.value);
            r.flags + FinishedFlag(r.hs) == s.flags + HeaderFlags(h) && r.contentLength == s.contentLength
  {
    hide Lowered, Matched, IsToken, IsGap, ValueRead, ListFlags, Items, IsWord, BeginsWord, IsValue;
    NameState(h);
    assert s.flags + {} == s.flags;
    if IsConnection(h.name) {
      ConnectionLookup(s, h.value);
    } else if Lowered(h.name) == UPGRADE {
      UpgradeRead(s, h.value);
      assert s.flags + {Upgrade} + {} == s.flags + {Upgrade};
    } else if Lowered(h.name) == TRANSFER_ENCODING {
      CodingLookup(s, h.value);
    } else {
      PlainValue(s, h.value);
    }
  }

  /** A header line changes nothing but the matchers, the count and its flags, and its callbacks are
      its name and value. */
  lemma LineTells(p: Parser, h: Header, eol: string)
    requires p.f.state == HeaderFieldStart && IsHeader(h) && !EndsWith(p.trace, Field)
    ensures MayFinish(AfterLine(p, h, eol))
    ensures var q := Settled(AfterLine(p, h, eol));
            && q.f == p.f.(headerState := q.f.headerState, index := q.f.index, flags := p.f.flags + HeaderFlags(h),
                           nread := p.f.nread + |HeaderLine(h, eol)|)
            && q.trace == p.trace + HeaderEvents(h) && !EndsWith(q.trace, Field)
  {
    hide Matched, Lowered, IsHeader, IsToken, HeaderLine, ValueRead, HeaderFlags, EndsWith, HeaderEvents, Emit,
      IsConnection, FinishedFlag;
    NameState(h);
    LineLength(h, eol);
    EmitHeader(p.trace, h);
    var b := AfterGap(p, h);
    assert p.f.flags + {} == p.f.flags;
    if h.value == "" {
      EmptyFlags(h);
    } else {
      ValueFlags(h, ValueOf(b.f));
    }
  }

  lemma EmptyFlags(h: Header)
    requires h.value == ""
    ensures HeaderFlags(h) == {}
  {
  }

  // ---------------------------------------------------------------- headers that frame the body

  lemma LoweredAt(w: string, i: nat)
    requires i < |w|
    ensures Lowered(w)[i] == TokenChar(w[i])
  {
    if i < |w| - 1 {
      LoweredAt(w[..|w| - 1], i);
    }
  }

  /** A text that is `lower` but for the case of some letters. */
  lemma LoweredIs(w: string, lower: string)
    requires |w| == |lower| && forall i :: 0 <= i < |w| ==> TokenChar(w[i]) == lower[i]
    ensures Lowered(w) == lower
  {
    forall i | 0 <= i < |w| ensures Lowered(w)[i] == lower[i] {
      LoweredAt(w, i);
    }
  }

  /** A name that is a known one but for the case of some letters is a token. */
  lemma KnownIsToken(w: string)
    requires Lowered(w) == CONTENT_LENGTH || Lowered(w) == TRANSFER_ENCODING
    ensures IsToken(w)
  {
    forall i | 0 <= i < |w| ensures TokenChar(w[i]) != '\0' {
      LoweredAt(w, i);
    }
  }

  /** A header that announces a body of `n` bytes: its name in any case, any digits. */
  predicate IsLength(h: Header, n: nat) {
    Lowered(h.name) == CONTENT_LENGTH && IsDecimal(h.value) && Decimal(h.value) == n
  }

  /** A header that announces chunks: its name and its value in any case. */
  predicate IsCoding(h: Header) {
    Lowered(h.name) == TRANSFER_ENCODING && IsWord(h.value, CHUNKED)
  }

  lemma LengthHeaderReads(cfg: Settings, p: Parser, h: Header, eol: string, n: nat)
    requires p.f.state == HeaderFieldStart && ContentLength !in p.f.flags && !EndsWith(p.trace, Field)
    requires IsLength(h, n) && n <= MAX_LENGTH && IsGap(h.gap) && IsEol(eol) && Room(cfg, p, |HeaderLine(h, eol)|)
    ensures Reads(cfg, p, HeaderLine(h, eol),
                  AfterHeader(p, h, eol, p.f.(headerState := ContentLengthNum, index := 0,
                                         flags := p.f.flags + {ContentLength},
                                         contentLength := n)))
  {
    hide Run, Step, Matched, Lowered, IsToken, Reads, Emit, EndsWith, HeaderEvents, HeaderLine, Decimal, IsGap, IsEol;
    EmitHeader(p.trace, h);
    LineLength(h, eol);
    KnownIsToken(h.name);
    MatchedIsLookup(CONTENT_LENGTH);
    var b := AfterGap(p, h);
    LengthAccepted(cfg, b, h.value);
    ValueLineReads(cfg, p, h, eol, AfterLength(b, h.value));
  }

  lemma CodingHeaderReads(cfg: Settings, p: Parser, h: Header, eol: string)
    requires p.f.state == HeaderFieldStart && !EndsWith(p.trace, Field)
    requires IsCoding(h) && IsValue(h.value) && IsGap(h.gap) && IsEol(eol) && Room(cfg, p, |HeaderLine(h, eol)|)
    ensures Reads(cfg, p, HeaderLine(h, eol), AfterHeader(p, h, eol, p.f.(headerState := ChunkedValue, index := 6)))
  {
    hide Run, Step, Matched, Lowered, IsToken, Reads, Emit, EndsWith, HeaderEvents, HeaderLine, IsValue, ValueRead,
      IsGap, IsEol;
    EmitHeader(p.trace, h);
    LineLength(h, eol);
    KnownIsToken(h.name);
    MatchedIsLookup(TRANSFER_ENCODING);
    var b := AfterGap(p, h);
    ValueReads(cfg, b, h.value);
    CodingLookup(ValueOf(b.f), h.value);
    ValueLineReads(cfg, p, h, eol, AfterValue(b, h.value));
  }

  // ---------------------------------------------------------------- header blocks

  function HeadersText(hs: seq<Header>, eol: string): string {
    if hs == [] then "" else HeadersText(hs[..|hs| - 1], eol) + HeaderLine(hs[|hs| - 1], eol)
  }

  function HeadersEvents(hs: seq<Header>): seq<Event> {
    if hs == [] then [] else HeadersEvents(hs[..|hs| - 1]) + HeaderEvents(hs[|hs| - 1])
  }

  function HeadersFlags(hs: seq<Header>): set<Flag> {
    if hs == [] then {} else HeadersFlags(hs[..|hs| - 1]) + HeaderFlags(hs[|hs| - 1])
  }

  predicate AreHeaders(hs: seq<Header>) { forall i :: 0 <= i < |hs| ==> IsHeader(hs[i]) }

  /** The parser after a list of headers, the last of them finished. */
  function AfterHeaders(p: Parser, hs: seq<Header>, eol: string): Parser
    requires AreHeaders(hs)
  {
    if hs == [] then p else Settled(AfterLine(AfterHeaders(p, hs[..|hs| - 1], eol), hs[|hs| - 1], eol))
  }

  /** Headers change nothing but the matchers, the count and their flags. */
  lemma {:induction false} HeadersKeep(p: Parser, hs: seq<Header>, eol: string)
    requires p.f.state == HeaderFieldStart && !EndsWith(p.trace, Field) && AreHeaders(hs)
    ensures var q := AfterHeaders(p, hs, eol);
            && q.f == p.f.(headerState := q.f.headerState, index := q.f.index, flags := p.f.flags + HeadersFlags(hs),
                           nread := p.f.nread + |HeadersText(hs, eol)|)
            && q.trace == p.trace + HeadersEvents(hs) && !EndsWith(q.trace, Field)
  {
    hide HeaderLine, IsHeader, HeaderFlags, AfterLine, Settled, EndsWith, HeaderEvents;
    if hs == [] {
      assert p.f.flags + {} == p.f.flags;
    } else {
      var n := |hs| - 1;
      HeadersKeep(p, hs[..n], eol);
      var a := AfterHeaders(p, hs[..n], eol);
      LineTells(a, hs[n], eol);
      assert p.trace + HeadersEvents(hs) == p.trace + HeadersEvents(hs[..n]) + HeaderEvents(hs[n]);
      assert p.f.flags + HeadersFlags(hs) == p.f.flags + HeadersFlags(hs[..n]) + HeaderFlags(hs[n]);
    }
  }

  /** What is read behind finished headers is read behind their text, if it goes on in the
      first column. */
  lemma {:induction false} HeadersThen(cfg: Settings, p: Parser, hs: seq<Header>, eol: string, rest: string)
    requires p.f.state == HeaderFieldStart && !EndsWith(p.trace, Field) && AreHeaders(hs) && IsEol(eol)
    requires Room(cfg, p, |HeadersText(hs, eol)| + 1) && InFirstColumn(rest)
    ensures Run(cfg, p, HeadersText(hs, eol) + rest) ==
            Shift(Run(cfg, AfterHeaders(p, hs, eol), rest), |HeadersText(hs, eol)|)
    decreases |hs|
  {
    hide Run, Settled, IsHeader, EndsWith, HeaderLine, AfterLine, IsEol, InFirstColumn, HeadersFlags, HeadersEvents;
    if hs == [] {
      assert HeadersText(hs, eol) + rest == rest;
    } else {
      var n := |hs| - 1;
      var h, a := hs[n], AfterHeaders(p, hs[..n], eol);
      HeadersKeep(p, hs[..n], eol);
      LineThen(cfg, a, h, eol, rest);
      LineFirst(h, eol);
      HeadersThen(cfg, p, hs[..n], eol, HeaderLine(h, eol) + rest);
      assert HeadersText(hs, eol) + rest == HeadersText(hs[..n], eol) + (HeaderLine(h, eol) + rest);
    }
  }

  lemma LineThen(cfg: Settings, p: Parser, h: Header, eol: string, rest: string)
    requires p.f.state == HeaderFieldStart && !EndsWith(p.trace, Field) && IsHeader(h) && IsEol(eol)
    requires Room(cfg, p, |HeaderLine(h, eol)| + 1) && InFirstColumn(rest)
    ensures Run(cfg, p, HeaderLine(h, eol) + rest) ==
            Shift(Run(cfg, Settled(AfterLine(p, h, eol)), rest), |HeaderLine(h, eol)|)
  {
    hide Run, IsHeader, EndsWith, HeaderLine, AfterLine, IsEol, Emit, FinishedFlag;
    HeaderReads(cfg, p, h, eol);
    LineTells(p, h, eol);
    SettledRun(cfg, AfterLine(p, h, eol), rest);
    RunThen(cfg, p, HeaderLine(h, eol), AfterLine(p, h, eol), rest);
  }

  /** A header line begins in the first column. */
  lemma LineFirst(h: Header, eol: string)
    requires IsHeader(h) || IsToken(h.name)
    ensures forall rest :: InFirstColumn(HeaderLine(h, eol) + rest)
  {
    hide IsValue, IsWord, Lowered;
    assert IsToken(h.name);
    assert TokenChar(h.name[0]) != '\0';
    forall rest ensures InFirstColumn(HeaderLine(h, eol) + rest) {
      assert (HeaderLine(h, eol) + rest)[0] == h.name[0];
    }
  }

  // ---------------------------------------------------------------- what the headers ask for

  /** Some Connection header has the word among its items, and not behind one that derails. */
  predicate Asks(hs: seq<Header>, word: string) { exists i :: 0 <= i < |hs| && AsksIn(hs[i], word) }

  predicate AsksIn(h: Header, word: string) {
    && IsConnection(h.name) && h.value != ""
    && exists j :: 0 <= j < |Items(h.value)| && !Lost(Items(h.value), j) && IsWord(Trim(Items(h.value)[j]), word)
  }

  /** Some Upgrade header has a value. */
  predicate Offers(hs: seq<Header>) { exists i :: 0 <= i < |hs| && OffersIn(hs[i]) }

  predicate OffersIn(h: Header) { Lowered(h.name) == UPGRADE && h.value != "" }

  lemma HeaderMeans(h: Header)
    ensures Close in HeaderFlags(h) <==> AsksIn(h, CLOSE)
    ensures KeepAlive in HeaderFlags(h) <==> AsksIn(h, KEEP_ALIVE)
    ensures ConnectionUpgrade in HeaderFlags(h) <==> AsksIn(h, UPGRADING)
    ensures Upgrade in HeaderFlags(h) <==> OffersIn(h)
    ensures HeaderFlags(h) <= {KeepAlive, Close, ConnectionUpgrade, Upgrade}
  {
    hide ListFlags, Items, ItemFlag, IsWord, Trim, Lost, Lowered;
    var items := Items(h.value);
    NamesUnlike();
    ListSets(items, Close);
    ListSets(items, KeepAlive);
    ListSets(items, ConnectionUpgrade);
    ListFlagsOnly(items);
    forall j | 0 <= j < |items|
      ensures Close in ItemFlag(items[j]) <==> IsWord(Trim(items[j]), CLOSE)
      ensures KeepAlive in ItemFlag(items[j]) <==> IsWord(Trim(items[j]), KEEP_ALIVE)
      ensures ConnectionUpgrade in ItemFlag(items[j]) <==> IsWord(Trim(items[j]), UPGRADING)
    {
      FlagWord(items[j]);
    }
  }

  lemma NamesUnlike()
    ensures UPGRADE != CONNECTION && UPGRADE != PROXY_CONNECTION
  {
  }

  /** The flags of a header block are what its headers ask for. */
  lemma {:induction false} HeadersMean(hs: seq<Header>)
    ensures Close in HeadersFlags(hs) <==> Asks(hs, CLOSE)
    ensures KeepAlive in HeadersFlags(hs) <==> Asks(hs, KEEP_ALIVE)
    ensures ConnectionUpgrade in HeadersFlags(hs) <==> Asks(hs, UPGRADING)
    ensures Upgrade in HeadersFlags(hs) <==> Offers(hs)
    ensures HeadersFlags(hs) <= {KeepAlive, Close, ConnectionUpgrade, Upgrade}
  {
    hide HeaderFlags, AsksIn, OffersIn;
    if hs != [] {
      var n := |hs| - 1;
      HeadersMean(hs[..n]);
      HeaderMeans(hs[n]);
      AsksMore(hs, CLOSE);
      AsksMore(hs, KEEP_ALIVE);
      AsksMore(hs, UPGRADING);
      assert Offers(hs) <==> Offers(hs[..n]) || OffersIn(hs[n]) by {
        assert forall i :: 0 <= i < n ==> hs[..n][i] == hs[i];
      }
    }
  }

  lemma AsksMore(hs: seq<Header>, word: string)
    requires hs != []
    ensures var n := |hs| - 1;
            Asks(hs, word) <==> Asks(hs[..n], word) || AsksIn(hs[n], word)
  {
    hide AsksIn;
    var n := |hs| - 1;
    assert forall i :: 0 <= i < n ==> hs[..n][i] == hs[i];
  }

  // ---------------------------------------------------------------- the header that announces the body

  function FramingText(c: Content, eol: string): string {
    match c
    case NoContent => ""
    case Fixed(length, _) => HeaderLine(length, eol)
    case Chunks(coding, _, _) => HeaderLine(coding, eol)
  }

  function FramingEvents(c: Content): seq<Event> {
    match c
    case NoContent => []
    case Fixed(length, _) => HeaderEvents(length)
    case Chunks(coding, _, _) => HeaderEvents(coding)
  }

  /** The header says what body follows. */
  predicate IsFraming(c: Content) {
    match c
    case NoContent => true
    case Fixed(length, data) => IsLength(length, |data|) && IsGap(length.gap) && |data| <= MAX_LENGTH
    case Chunks(coding, _, _) => IsCoding(coding) && IsGap(coding.gap) && IsValue(coding.value)
  }

  /** The lines of a chunked body keep to the header limit, to which they count too. */
  predicate LinesFit(cfg: Settings, c: Content) {
    c.Chunks? ==> IsChunkedBody(cfg, c.chunks, c.last)
  }

  function FramingFlags(c: Content): set<Flag> {
    if c.Chunks? then {Chunked} else if c.Fixed? then {ContentLength} else {}
  }

  function FramingLength(c: Content): nat { if c.Fixed? then |c.data| else NO_LENGTH }

  /** What the header leaves in the fields, once it is finished. */
  function Framed(f: Fields, c: Content): Fields {
    match c
    case NoContent => f
    case Fixed(_, data) =>
      f.(flags := f.flags + {ContentLength}, contentLength := |data|, headerState := ContentLengthNum, index := 0)
    case Chunks(_, _, _) => f.(flags := f.flags + {Chunked}, headerState := ChunkedValue, index := 6)
  }

  function AfterFraming(p: Parser, c: Content, eol: string): Parser {
    Parser(Framed(p.f, c).(nread := p.f.nread + |FramingText(c, eol)|), p.trace + FramingEvents(c))
  }

  lemma FramingThen(cfg: Settings, p: Parser, c: Content, eol: string, rest: string)
    requires p.f.state == HeaderFieldStart && (c.Fixed? ==> ContentLength !in p.f.flags) && !EndsWith(p.trace, Field)
    requires IsFraming(c) && IsEol(eol) && Room(cfg, p, |FramingText(c, eol)| + 1) && InFirstColumn(rest)
    ensures Run(cfg, p, FramingText(c, eol) + rest) ==
            Shift(Run(cfg, AfterFraming(p, c, eol), rest), |FramingText(c, eol)|)
    ensures InFirstColumn(FramingText(c, eol) + rest)
  {
    hide Run, EndsWith, HeaderLine, IsLength, IsCoding, IsValue, IsGap, IsEol;
    match c {
      case NoContent =>
        assert FramingText(c, eol) + rest == rest;
        assert p.trace + FramingEvents(c) == p.trace;
        ShiftNothing(Run(cfg, p, rest));
      case Fixed(length, data) =>
        var a := AfterHeader(p, length, eol, p.f.(headerState := ContentLengthNum, index := 0,
                                                  flags := p.f.flags + {ContentLength}, contentLength := |data|));
        LengthHeaderReads(cfg, p, length, eol, |data|);
        LengthFirst(length, eol, |data|);
        assert a.f.flags + {} == a.f.flags;
        SettledRun(cfg, a, rest);
        RunThen(cfg, p, HeaderLine(length, eol), a, rest);
      case Chunks(coding, _, _) =>
        var a := AfterHeader(p, coding, eol, p.f.(headerState := ChunkedValue, index := 6));
        CodingHeaderReads(cfg, p, coding, eol);
        CodingFirst(coding, eol);
        SettledRun(cfg, a, rest);
        RunThen(cfg, p, HeaderLine(coding, eol), a, rest);
    }
  }

  lemma ShiftNothing(r: Result)
    ensures Shift(r, 0) == r
  {
  }

  lemma LengthFirst(h: Header, eol: string, n: nat)
    requires IsLength(h, n)
    ensures forall rest :: InFirstColumn(HeaderLine(h, eol) + rest)
  {
    hide Decimal, HeaderLine, InFirstColumn;
    KnownIsToken(h.name);
    LineFirst(h, eol);
  }

  lemma CodingFirst(h: Header, eol: string)
    requires IsCoding(h)
    ensures forall rest :: InFirstColumn(HeaderLine(h, eol) + rest)
  {
    hide IsWord, HeaderLine, InFirstColumn;
    KnownIsToken(h.name);
    LineFirst(h, eol);
  }

  lemma FramingKeeps(p: Parser, c: Content, eol: string)
    requires !EndsWith(p.trace, Field)
    ensures !EndsWith(AfterFraming(p, c, eol).trace, Field)
    ensures AfterFraming(p, c, eol).f.state == p.f.state
  {
    var t := p.trace + FramingEvents(c);
    if c == NoContent {
      assert t == p.trace;
    } else {
      assert t[|t| - 1].Data? && t[|t| - 1].kind == Value;
    }
  }

  // ---------------------------------------------------------------- whole header blocks

  /** The headers, and the one that announces the body. */
  function LinesText(hs: seq<Header>, c: Content, eol: string): string { HeadersText(hs, eol) + FramingText(c, eol) }

  /** The same and the empty line. */
  function BlockText(hs: seq<Header>, c: Content, eol: string): string { LinesText(hs, c, eol) + eol }

  function BlockEvents(hs: seq<Header>, c: Content): seq<Event> { HeadersEvents(hs) + FramingEvents(c) }

  function BlockFlags(hs: seq<Header>, c: Content): set<Flag> { HeadersFlags(hs) + FramingFlags(c) }

  /** Before the first header of a message. */
  predicate BeforeHeaders(p: Parser) {
    p.f.state == HeaderFieldStart && p.f.flags == {} && p.f.contentLength == NO_LENGTH && !EndsWith(p.trace, Field)
  }

  predicate IsBlock(hs: seq<Header>, c: Content) { AreHeaders(hs) && IsFraming(c) }

  /** The parser before the empty line. */
  function AfterBlock(p: Parser, hs: seq<Header>, c: Content, eol: string): Parser
    requires AreHeaders(hs)
  {
    AfterFraming(AfterHeaders(p, hs, eol), c, eol)
  }

  /** A header block leaves what it asks for and announces, and counts all its bytes. */
  lemma BlockTells(p: Parser, hs: seq<Header>, c: Content, eol: string)
    requires BeforeHeaders(p) && AreHeaders(hs)
    ensures var q := AfterBlock(p, hs, c, eol);
            && q.f == p.f.(headerState := q.f.headerState, index := q.f.index, flags := BlockFlags(hs, c),
                           contentLength := FramingLength(c), nread := p.f.nread + |LinesText(hs, c, eol)|)
            && q.trace == p.trace + BlockEvents(hs, c) && !EndsWith(q.trace, Field)
  {
    hide HeaderLine, EndsWith, HeaderEvents, AreHeaders, AfterHeaders;
    HeadersKeep(p, hs, eol);
    FramingKeeps(AfterHeaders(p, hs, eol), c, eol);
    assert {} + HeadersFlags(hs) == HeadersFlags(hs) && HeadersFlags(hs) + {} == HeadersFlags(hs);
  }

  /** What is read behind a header block is read behind its text, if it goes on in the first column. */
  lemma BlockThen(cfg: Settings, p: Parser, hs: seq<Header>, c: Content, eol: string, rest: string)
    requires BeforeHeaders(p) && IsBlock(hs, c) && IsEol(eol) && Room(cfg, p, |LinesText(hs, c, eol)| + 1)
    requires InFirstColumn(rest)
    ensures Run(cfg, p, LinesText(hs, c, eol) + rest) ==
            Shift(Run(cfg, AfterBlock(p, hs, c, eol), rest), |LinesText(hs, c, eol)|)
  {
    hide Run, AreHeaders, IsFraming, FramingText, HeadersText, EndsWith, IsEol, InFirstColumn, AfterHeaders,
      HeadersFlags, AfterFraming, Shift;
    HeadersKeep(p, hs, eol);
    NoLengthYet(hs);
    assert {} + HeadersFlags(hs) == HeadersFlags(hs);
    var a := AfterHeaders(p, hs, eol);
    FramingThen(cfg, a, c, eol, rest);
    HeadersThen(cfg, p, hs, eol, FramingText(c, eol) + rest);
    assert LinesText(hs, c, eol) + rest == HeadersText(hs, eol) + (FramingText(c, eol) + rest);
    ShiftTwice(Run(cfg, AfterFraming(a, c, eol), rest), |FramingText(c, eol)|, |HeadersText(hs, eol)|);
  }

  lemma NoLengthYet(hs: seq<Header>)
    ensures ContentLength !in HeadersFlags(hs)
  {
    hide HeadersFlags, Asks, Offers;
    HeadersMean(hs);
  }

  lemma ShiftTwice(r: Result, a: nat, b: nat)
    ensures Shift(Shift(r, a), b) == Shift(r, b + a)
  {
  }

  // ---------------------------------------------------------------- the empty line

  /** The client never refuses a body. */
  ghost predicate AlwaysGoesOn(cfg: Settings) {
    forall view, trace :: cfg.onHeadersComplete(view, trace) == GoOn
  }

  /** What the client answers at the end of the headers. */
  function ReplyTo(cfg: Settings, p: Parser): Reply { cfg.onHeadersComplete(CallbackView(p.f), p.trace) }

  /** The parser in the middle of the empty line. */
  function AtBlank(p: Parser): Parser {
    p.(f := p.f.(state := HeadersAlmostDone, nread := p.f.nread + 1))
  }

  /** The parser once the headers are complete and the client has answered. */
  function HeadDone(p: Parser, reply: Reply): Parser {
    Parser(WithReply(p.f.(state := HeadersDone, upgrade := UpgradeOf(p.f)), reply).(nread := 0),
           p.trace + [HeadersComplete(CallbackView(p.f))])
  }

  /** Where the body begins, or the message ends. */
  function BodyBegins(q: Parser): Parser {
    if SkipBody in q.f.flags then MessageOver(q)
    else if Chunked in q.f.flags then q.(f := q.f.(state := ChunkSizeStart))
    else if HasBody(q.f) then q.(f := q.f.(state := BodyIdentity))
    else if q.f.contentLength == 0 || !q.f.MessageNeedsEof() then MessageOver(q)
    else q.(f := q.f.(state := BodyIdentityEof))
  }

  /** The message ends with its head, and what follows is another protocol. */
  predicate EndsHere(f: Fields) { f.upgrade && (f.meth == Connect || SkipBody in f.flags || !HasBody(f)) }

  /** What a run comes to that ends a head after `n` bytes. */
  function HeadEnds(q: Parser, n: nat): Result {
    if EndsHere(q.f) then Exited(MessageOver(q), n) else Running(BodyBegins(q))
  }

  lemma BlankReads(cfg: Settings, p: Parser)
    requires p.f.state == HeaderFieldStart && Room(cfg, p, 1)
    ensures Reads(cfg, p, [CR], AtBlank(p))
  {
    hide Run, Step;
    ReadsNothing(cfg, p);
    StepOfHeaderEnd(cfg, Counted(p));
    ReadsByte(cfg, p, "", p, CR);
    assert [CR] == "" + [CR];
  }

  /** The fields before the empty line of a head, rather than of a trailer. */
  predicate OfHead(f: Fields) { Trailing !in f.flags && SkipBody !in f.flags }

  lemma StepOfHeadersEnd(cfg: Settings, p: Parser)
    requires p.f.state == HeadersAlmostDone && OfHead(p.f)
    ensures Step(cfg, p, LF) ==
            if Chunked in p.f.flags && ContentLength in p.f.flags then Error(UnexpectedContentLength)
            else Again(WithReply(p.f.(state := HeadersDone, upgrade := UpgradeOf(p.f)), ReplyTo(cfg, p)),
                       Some(HeadersComplete(CallbackView(p.f))))
  {
    assert Step(cfg, p, LF) == StepHeadersEnd(p.f, LF, cfg.onHeadersComplete(CallbackView(p.f), p.trace));
  }

  lemma StepOfBlankLine(cfg: Settings, p: Parser)
    requires p.f.state == HeaderFieldStart
    ensures Step(cfg, p, LF) == Again(p.f.(state := HeadersAlmostDone), None)
  {
  }

  /** What the headers announce. */
  lemma StepOfHeadersDone(cfg: Settings, q: Parser)
    requires q.f.state == HeadersDone
    ensures var d := q.(f := q.f.(nread := 0));
            var a := Step(cfg, q, LF);
            if EndsHere(q.f) then a == Exit(Finished(d.f), Farewell(d.f))
            else if SkipBody !in q.f.flags && (HasBody(q.f) || (q.f.contentLength != 0 && q.f.MessageNeedsEof())) then
              a == Break(BodyBegins(d).f, None)
            else a == Break(Finished(d.f), Farewell(d.f))
  {
    assert Step(cfg, q, LF) == StepHeadersEnd(q.f, LF, cfg.onHeadersComplete(CallbackView(q.f), q.trace));
  }

  lemma HeadersDoneExec(cfg: Settings, q: Parser, at: nat)
    requires q.f.state == HeadersDone
    ensures Exec(cfg, q, LF, at) == HeadEnds(q.(f := q.f.(nread := 0)), at + 1)
  {
    hide Exec, Step;
    StepOfHeadersDone(cfg, q);
    ExecOnce(cfg, q, LF, at);
  }

  /** What the end of the empty line comes to; the client is asked unless the body is announced
      in two ways. */
  function BlankEnds(cfg: Settings, q: Parser, at: nat): Result {
    if Chunked in q.f.flags && ContentLength in q.f.flags then Failed(UnexpectedContentLength, at)
    else HeadEnds(HeadDone(q, ReplyTo(cfg, q)), at + 1)
  }

  lemma BlankExec(cfg: Settings, b: Parser, q: Parser, at: nat)
    requires OfHead(q.f) && b.f.state == HeadersAlmostDone
    requires b == q.(f := q.f.(state := b.f.state, nread := b.f.nread))
    ensures Exec(cfg, b, LF, at) == BlankEnds(cfg, q, at)
  {
    hide Step, Exec, HeadEnds;
    StepOfHeadersEnd(cfg, b);
    ExecOnce(cfg, b, LF, at);
    assert CallbackView(b.f) == CallbackView(q.f);
    if !(Chunked in q.f.flags && ContentLength in q.f.flags) {
      HeadersDoneExec(cfg, After(b, Step(cfg, b, LF)), at);
    }
  }

  /** The empty line completes the headers. */
  lemma BlankLineRun(cfg: Settings, q: Parser, eol: string)
    requires q.f.state == HeaderFieldStart && OfHead(q.f) && IsEol(eol) && Room(cfg, q, |eol|)
    ensures Run(cfg, q, eol) == BlankEnds(cfg, q, |eol| - 1)
  {
    hide Run, Step, Exec, BlankEnds;
    if eol == CRLF {
      BlankReads(cfg, q);
      assert eol == [CR] + [LF];
      LastByte(cfg, q, [CR], AtBlank(q), LF);
      BlankExec(cfg, Counted(AtBlank(q)), q, 1);
    } else {
      ReadsNothing(cfg, q);
      assert eol == "" + [LF];
      LastByte(cfg, q, "", q, LF);
      StepOfBlankLine(cfg, Counted(q));
      ExecOnce(cfg, Counted(q), LF, 0);
      BlankExec(cfg, After(Counted(q), Step(cfg, Counted(q), LF)), q, 0);
    }
  }

  lemma LastByte(cfg: Settings, p: Parser, a: string, q: Parser, ch: char)
    requires Reads(cfg, p, a, q) && (ParsingHeader(q.f.state) ==> Room(cfg, q, 1))
    ensures Run(cfg, p, a + [ch]) == Exec(cfg, Counted(q), ch, |a|)
  {
    hide Exec;
    assert (a + [ch])[..|a|] == a;
  }

  /** A whole head, read behind the first line `line`. */
  lemma HeadReads(cfg: Settings, s: Parser, line: string, p: Parser, hs: seq<Header>, c: Content, eol: string)
    requires Reads(cfg, s, line, p) && BeforeHeaders(p) && IsBlock(hs, c) && IsEol(eol)
    requires Room(cfg, p, |BlockText(hs, c, eol)|)
    ensures var q := AfterBlock(p, hs, c, eol);
            var text := line + BlockText(hs, c, eol);
            Run(cfg, s, text) == HeadEnds(HeadDone(q, ReplyTo(cfg, q)), |text|)
  {
    hide Run, AreHeaders, IsFraming, LinesText, HeadEnds, HeadDone, AfterBlock, IsEol, FramingFlags;
    EolFirst(eol);
    BlockThen(cfg, p, hs, c, eol, eol);
    BlockTells(p, hs, c, eol);
    BlockOfHead(hs, c);
    var q := AfterBlock(p, hs, c, eol);
    BlankLineRun(cfg, q, eol);
    RunThen(cfg, s, line, p, BlockText(hs, c, eol));
    var r := HeadDone(q, ReplyTo(cfg, q));
    HeadEndsShift(r, |eol|, |LinesText(hs, c, eol)|);
    HeadEndsShift(r, |BlockText(hs, c, eol)|, |line|);
  }

  lemma HeadEndsShift(q: Parser, n: nat, k: nat)
    ensures Shift(HeadEnds(q, n), k) == HeadEnds(q, k + n)
  {
  }

  lemma EolFirst(eol: string)
    requires IsEol(eol)
    ensures InFirstColumn(eol) && 1 <= |eol| <= 2
  {
  }

  lemma BlockOfHead(hs: seq<Header>, c: Content)
    ensures var flags := BlockFlags(hs, c);
            && Trailing !in flags && SkipBody !in flags && !(Chunked in flags && ContentLength in flags)
            && (Chunked in flags <==> c.Chunks?) && (ContentLength in flags <==> c.Fixed?)
            && (Close in flags <==> Asks(hs, CLOSE)) && (KeepAlive in flags <==> Asks(hs, KEEP_ALIVE))
            && (ConnectionUpgrade in flags <==> Asks(hs, UPGRADING)) && (Upgrade in flags <==> Offers(hs))
  {
    hide HeadersFlags, Asks, Offers;
    HeadersMean(hs);
  }

  /** A head that does not fit the header limit is refused at exactly the first byte too many. */
  lemma HeadOverflows(cfg: Settings, limit: nat, s: Parser, line: string, p: Parser, hs: seq<Header>, c: Content,
                      eol: string)
    requires Reads(cfg.(limit := limit), s, line, p) && BeforeHeaders(p) && IsBlock(hs, c) && IsEol(eol)
    requires p.f.nread == s.f.nread + |line| && cfg.limit <= limit && p.f.nread + |BlockText(hs, c, eol)| <= limit
    requires s.f.nread <= cfg.limit < s.f.nread + |line + BlockText(hs, c, eol)|
    ensures Run(cfg, s, line + BlockText(hs, c, eol)) == Failed(HeaderOverflow, cfg.limit - s.f.nread)
  {
    hide Run, IsBlock, LinesText, AfterBlock, BeforeHeaders, IsEol;
    var big := cfg.(limit := limit);
    EolFirst(eol);
    OpenReads(big, p, hs, c, eol);
    var q := AfterBlock(p, hs, c, eol);
    var lines := line + LinesText(hs, c, eol);
    BlockTells(p, hs, c, eol) by { assert AreHeaders(hs) by { BlockParts(hs, c); } }
    ReadsThen(big, s, line, p, LinesText(hs, c, eol) + [CR], AtBlank(q));
    assert line + (LinesText(hs, c, eol) + [CR]) == lines + [CR];
    var w := LastCounted(cfg, limit, s, lines + [CR], AtBlank(q));
    assert (lines + [CR])[..|lines|] == lines;
    if EolIsTwo(eol) {
      OverflowsAt(cfg, limit, s, lines + [CR], AtBlank(q), LF);
      assert lines + [CR] + [LF] == line + BlockText(hs, c, eol) by { EolParts(eol); }
    } else {
      OverflowsAt(cfg, limit, s, lines, w, LF);
      assert lines + [LF] == line + BlockText(hs, c, eol) by { EolParts(eol); }
    }
  }

  predicate EolIsTwo(eol: string) { |eol| == 2 }

  lemma EolParts(eol: string)
    requires IsEol(eol)
    ensures eol == if EolIsTwo(eol) then [CR] + [LF] else [LF]
  {
  }

  lemma BlockParts(hs: seq<Header>, c: Content)
    requires IsBlock(hs, c)
    ensures AreHeaders(hs) && IsFraming(c)
  {
  }

  /** The lines of a block and a carriage return. */
  lemma OpenReads(cfg: Settings, p: Parser, hs: seq<Header>, c: Content, eol: string)
    requires BeforeHeaders(p) && IsBlock(hs, c) && IsEol(eol) && Room(cfg, p, |LinesText(hs, c, eol)| + 1)
    ensures AreHeaders(hs) && Reads(cfg, p, LinesText(hs, c, eol) + [CR], AtBlank(AfterBlock(p, hs, c, eol)))
  {
    hide Run, AreHeaders, IsFraming, LinesText, AfterBlock, IsEol;
    BlockThen(cfg, p, hs, c, eol, [CR]);
    BlockTells(p, hs, c, eol);
    BlankReads(cfg, AfterBlock(p, hs, c, eol));
  }

  // ---------------------------------------------------------------- bodies announced twice

  /** A second Content-Length header is refused at the first character of its value. */
  lemma SecondLengthRefused(cfg: Settings, p: Parser, h: Header, n: nat)
    requires p.f.state == HeaderFieldStart && ContentLength in p.f.flags
    requires IsLength(h, n) && IsGap(h.gap) && Room(cfg, p, |h.name| + 1 + |h.gap| + |h.value|)
    ensures Run(cfg, p, h.name + ":" + h.gap + h.value) ==
            Failed(UnexpectedContentLength, |h.name| + 1 + |h.gap|)
  {
    hide Run, Step, Matched, Lowered, IsToken, Emit, Decimal, IsGap;
    KnownIsToken(h.name);
    MatchedIsLookup(CONTENT_LENGTH);
    NameColonReads(cfg, p, h.name);
    var a := AfterColon(p, h.name);
    GapReads(cfg, p, h.name + ":", a, h.gap);
    var b := AfterGap(p, h);
    var text := h.name + ":" + h.gap;
    SecondLengthStep(cfg, Counted(b), h.value[0]);
    FailsByte(cfg, p, text, b, h.value[0]);
    assert (text + h.value)[..|text| + 1] == text + [h.value[0]];
    RunStays(cfg, p, text + h.value, |text| + 1);
  }

  lemma SecondLengthStep(cfg: Settings, b: Parser, ch: char)
    requires b.f.state == HeaderValueDiscardWs && b.f.headerState == ContentLengthName && ContentLength in b.f.flags
    requires IsNum(ch)
    ensures Step(cfg, b, ch) == Error(UnexpectedContentLength)
  {
    StepOfValue(cfg, b, ch);
  }

  /** A head with a Content-Length and a chunked coding, in either order, is refused at its end. */
  lemma TwoFramingsRefused(cfg: Settings, p: Parser, hs: seq<Header>, c: Content, d: Content, eol: string)
    requires BeforeHeaders(p) && AreHeaders(hs) && IsFraming(c) && IsFraming(d) && IsEol(eol)
    requires (c.Fixed? && d.Chunks?) || (c.Chunks? && d.Fixed?)
    requires Room(cfg, p, |LinesText(hs, c, eol)| + |FramingText(d, eol)| + |eol|)
    ensures var text := LinesText(hs, c, eol) + (FramingText(d, eol) + eol);
            Run(cfg, p, text) == Failed(UnexpectedContentLength, |text| - 1)
  {
    hide Run, AreHeaders, IsFraming, LinesText, FramingText, AfterBlock, IsEol, InFirstColumn;
    BlockTells(p, hs, c, eol);
    BlockOfHead(hs, c);
    var q := AfterBlock(p, hs, c, eol);
    EolFirst(eol);
    FramingThen(cfg, q, d, eol, eol);
    BlockThen(cfg, p, hs, c, eol, FramingText(d, eol) + eol);
    BlankLineRun(cfg, AfterFraming(q, d, eol), eol);
  }

  // ---------------------------------------------------------------- folded values

  /** What the matchers still know once a value is folded: a length is over, and in a list the next
      item is expected behind a comma. Anything else is forgotten, even a word that was complete. */
  function FoldState(hs: HeaderState): HeaderState {
    if hs == ContentLengthNum || hs == ContentLengthWs then ContentLengthWs
    else if hs == TokenStart then TokenStart
    else General
  }

  /** Behind a value that is not empty. */
  predicate HasValue(hs: HeaderState) {
    hs != UpgradeName && hs != TransferEncodingName && hs != ContentLengthName && hs != ConnectionName
  }

  /** A line that begins with white space goes on with the value of the header in front, white space
      included. If that was chunked, close, keep-alive or upgrade, it sets no flag any more. */
  lemma FoldedLineReads(cfg: Settings, p: Parser, blank: char, text: string, eol: string)
    requires p.f.state == HeaderValueLws && HasValue(p.f.headerState) && EndsWith(p.trace, Value)
    requires FoldState(p.f.headerState) == General
    requires (blank == ' ' || blank == '\t') && (forall i :: 0 <= i < |text| ==> InsideValue(text[i])) && IsEol(eol)
    requires Room(cfg, p, 1 + |text| + |eol|)
    ensures Reads(cfg, p, [blank] + text + eol,
                  Parser(p.f.(headerState := General, index := 0, nread := p.f.nread + 1 + |text| + |eol|),
                         Emit(p.trace, Data(Value, [blank] + text))))
  {
    hide Run, Step, Exec, Emit, IsEol;
    FoldBegins(cfg, p, blank);
    var q := Parser(p.f.(state := HeaderValue, headerState := General, index := 0, nread := p.f.nread + 1),
        Emit(p.trace, Data(Value, [blank])));
    EmitTwice(p.trace, Value, [blank], text);
    FoldGoesOn(cfg, p, [blank], q, text);
    var r := Parser(q.f.(nread := q.f.nread + |text|), Emit(q.trace, Data(Value, text)));
    LineEndReads(cfg, p, [blank] + text, r, eol);
  }

  lemma FoldBegins(cfg: Settings, p: Parser, blank: char)
    requires p.f.state == HeaderValueLws && HasValue(p.f.headerState) && (blank == ' ' || blank == '\t')
    requires Room(cfg, p, 1)
    ensures Reads(cfg, p, [blank],
                  Parser(p.f.(state := HeaderValue, headerState := FoldState(p.f.headerState), index := 0,
                              nread := p.f.nread + 1),
                         Emit(p.trace, Data(Value, [blank]))))
  {
    hide Run, Step, Exec, Emit;
    ReadsNothing(cfg, p);
    StepOfValue(cfg, Counted(p), blank);
    ReadsAgain(cfg, p, "", p, blank);
    var r := After(Counted(p), Step(cfg, Counted(p), blank));
    StepOfValue(cfg, r, blank);
    ExecOnce(cfg, r, blank, 0);
    assert "" + [blank] == [blank];
  }

  /** Behind a folded length only spaces may stand. */
  lemma FoldedLengthRefused(cfg: Settings, p: Parser, blank: char, ch: char)
    requires p.f.state == HeaderValueLws && (p.f.headerState == ContentLengthNum || p.f.headerState == ContentLengthWs)
    requires (blank == ' ' || blank == '\t') && InsideValue(ch) && ch != ' ' && Room(cfg, p, 2)
    ensures Run(cfg, p, [blank] + [ch]) == Failed(InvalidContentLength, 1)
  {
    hide Run, Step, Emit;
    FoldBegins(cfg, p, blank);
    var q := Parser(p.f.(state := HeaderValue, headerState := ContentLengthWs, index := 0, nread := p.f.nread + 1),
                    Emit(p.trace, Data(Value, [blank])));
    StepOfValue(cfg, Counted(q), ch);
    FailsByte(cfg, p, [blank], q, ch);
  }

  lemma {:induction false} FoldGoesOn(cfg: Settings, p: Parser, a: string, q: Parser, text: string)
    requires Reads(cfg, p, a, q) && q.f.state == HeaderValue && q.f.headerState == General && EndsWith(q.trace, Value)
    requires (forall i :: 0 <= i < |text| ==> InsideValue(text[i])) && Room(cfg, q, |text|)
    ensures Reads(cfg, p, a + text, Parser(q.f.(nread := q.f.nread + |text|), Emit(q.trace, Data(Value, text))))
    decreases |text|
  {
    hide Run, Step, Emit;
    if text == "" {
      assert a + text == a;
      EmitNothing(q.trace, Value);
    } else {
      var n := |text| - 1;
      FoldGoesOn(cfg, p, a, q, text[..n]);
      var r := Parser(q.f.(nread := q.f.nread + n), Emit(q.trace, Data(Value, text[..n])));
      assert InsideValue(text[n]);
      StepOfValue(cfg, Counted(r), text[n]);
      ReadsByte(cfg, p, a + text[..n], r, text[n]);
      EmitTwice(q.trace, Value, text[..n], [text[n]]);
      assert text[..n] + [text[n]] == text && a + text[..n] + [text[n]] == a + text;
    }
  }

  // ---------------------------------------------------------------- bodies

  function ContentText(c: Content): string {
    match c
    case NoContent => ""
    case Fixed(_, data) => data
    case Chunks(_, chunks, last) => BodyText(chunks, last)
  }

  function ContentEvents(c: Content): seq<Event> {
    match c
    case NoContent => []
    case Fixed(_, data) => if data == "" then [] else [Data(Body, data)]
    case Chunks(_, chunks, _) => BodyEvents(chunks)
  }

  predicate IsEmpty(c: Content) { c == NoContent || (c.Fixed? && c.data == "") }

  /** The headers are complete and announce this body. */
  predicate Announces(q: Parser, c: Content) {
    && q.f.state == HeadersDone && q.f.nread == 0 && SkipBody !in q.f.flags
    && (Chunked in q.f.flags <==> c.Chunks?) && q.f.contentLength == FramingLength(c) && !EndsWith(q.trace, Body)
  }

  /** The parser after the body. */
  function ContentOver(q: Parser, c: Content): Parser {
    var h := BodyBegins(q);
    match c
    case NoContent => h
    case Fixed(_, data) =>
      if data == "" then h else MessageOver(Parser(h.f.(contentLength := 0), h.trace + [Data(Body, data)]))
    case Chunks(_, chunks, _) => ChunkedBodyOver(h, chunks)
  }

  lemma EndsHereWhen(q: Parser, c: Content)
    requires Announces(q, c) && IsFraming(c)
    ensures HasBody(q.f) <==> !IsEmpty(c)
    ensures EndsHere(q.f) <==> q.f.upgrade && (q.f.meth == Connect || IsEmpty(c))
  {
    hide IsLength, IsCoding, IsGap, IsValue;
  }

  lemma ContentReads(cfg: Settings, q: Parser, c: Content)
    requires Announces(q, c) && IsFraming(c) && LinesFit(cfg, c) && Reachable(cfg, BodyBegins(q)) && !EndsHere(q.f)
    ensures Run(cfg, BodyBegins(q), ContentText(c)) == MessageEnds(ContentOver(q, c), |ContentText(c)|)
  {
    hide Run, Reachable, IsLength, IsCoding, IsChunkedBody, IsGap, IsValue;
    var h := BodyBegins(q);
    match c {
      case NoContent =>
        ReadsNothing(cfg, h);
      case Fixed(_, data) =>
        if data == "" {
          ReadsNothing(cfg, h);
        } else {
          FixedBodyReads(cfg, h, data);
        }
      case Chunks(_, chunks, last) =>
        ChunkedBodyReads(cfg, h, chunks, last);
    }
  }

  /** The bytes a body leaves counted: those of the empty line behind its last chunk. */
  function CountLeft(c: Content): nat { if c.Chunks? then 2 else 0 }

  /** The parser after a message. */
  function BehindMessage(q: Parser, c: Content): Parser { if EndsHere(q.f) then MessageOver(q) else ContentOver(q, c) }

  /** The text of a message up to where the parser is done with it. */
  function MessageText(head: string, q: Parser, c: Content): string {
    if EndsHere(q.f) then head else head + ContentText(c)
  }

  /** A whole message, given its head: if it is an upgrade the parser leaves right behind it. */
  lemma MessageReads(cfg: Settings, s: Parser, head: string, q: Parser, c: Content)
    requires Reachable(cfg, s) && Run(cfg, s, head) == HeadEnds(q, |head|)
    requires Announces(q, c) && IsFraming(c) && LinesFit(cfg, c)
    ensures var text := MessageText(head, q, c);
            Run(cfg, s, text) == MessageEnds(BehindMessage(q, c), |text|) && Reachable(cfg, BehindMessage(q, c))
  {
    hide Run, Reachable, IsFraming, LinesFit, BodyBegins, ContentText, ContentOver, Announces;
    InvRun(cfg, s, head);
    if !EndsHere(q.f) {
      ContentReads(cfg, q, c);
      RunThen(cfg, s, head, BodyBegins(q), ContentText(c));
      InvRun(cfg, s, head + ContentText(c));
    }
  }

  /** The end of a message whose body does not go on to the end of the connection. */
  lemma MessageTells(q: Parser, c: Content)
    requires Announces(q, c) && IsFraming(c) && !q.f.MessageNeedsEof()
    ensures var r := BehindMessage(q, c);
            && r.trace == q.trace + (if EndsHere(q.f) then [] else ContentEvents(c))
                          + [MessageComplete(q.f.ShouldKeepAlive())]
            && r.f.state == q.f.NewMessage() && r.f.nread == (if EndsHere(q.f) then 0 else CountLeft(c))
            && r.f.kind == q.f.kind && r.f.meth == q.f.meth && r.f.statusCode == q.f.statusCode
            && r.f.upgrade == q.f.upgrade
  {
    hide IsLength, IsCoding, EndsWith, IsGap, IsValue;
  }

  // ---------------------------------------------------------------- whether the connection stays open

  /** The connection stays open: from version 1.1 on unless it is asked to be closed, and before only
      if it is asked to be kept. */
  predicate KeepsOpen(major: nat, minor: nat, hs: seq<Header>) {
    if major > 0 && minor > 0 then !Asks(hs, CLOSE) else Asks(hs, KEEP_ALIVE)
  }

  /** Persistence by section 6.3 of RFC 7230. */
  predicate Persists(major: nat, minor: nat, hs: seq<Header>) {
    !Asks(hs, CLOSE) && (major > 1 || (major == 1 && minor >= 1) || Asks(hs, KEEP_ALIVE))
  }

  /** The parser keeps to the standard but for two kinds of messages whose version is 0.x or x.0: one
      that asks for both, and one of version 2.0 or later that asks for nothing. */
  lemma PersistsAsStandard(major: nat, minor: nat, hs: seq<Header>)
    ensures var early := major == 0 || minor == 0;
            (KeepsOpen(major, minor, hs) <==> Persists(major, minor, hs)) <==>
            !(early && Asks(hs, KEEP_ALIVE) && Asks(hs, CLOSE))
            && !(early && major > 1 && !Asks(hs, KEEP_ALIVE) && !Asks(hs, CLOSE))
  {
    hide Asks;
  }

  /** A message that asks for an upgrade in both headers is one, a response only with the code 101;
      without both, CONNECT is. */
  predicate IsUpgrade(kind: ParserType, code: nat, meth: Method, hs: seq<Header>) {
    if Offers(hs) && Asks(hs, UPGRADING) then kind == Request || code == 101 else meth == Connect
  }

  /** What the headers ask for decides. */
  lemma HeadDecides(q: Parser, hs: seq<Header>, c: Content)
    requires q.f.flags == BlockFlags(hs, c)
    ensures UpgradeOf(q.f) == IsUpgrade(q.f.kind, q.f.statusCode, q.f.meth, hs)
    ensures q.f.ShouldKeepAlive() == (KeepsOpen(q.f.httpMajor, q.f.httpMinor, hs) && !q.f.MessageNeedsEof())
  {
    hide BlockFlags, Asks, Offers;
    BlockOfHead(hs, c);
  }

  /** The handshake of a web socket: both headers, so an upgrade. */
  lemma Handshake()
    ensures var hs := [Header("Upgrade", " ", "websocket"), Header("Connection", " ", "Upgrade")];
            AreHeaders(hs) && Offers(hs) && Asks(hs, UPGRADING) && IsUpgrade(Request, 0, Get, hs)
  {
    hide Asks, Offers;
    UpgradeHeader();
    ConnectionHeader();
    var h, g := Header("Upgrade", " ", "websocket"), Header("Connection", " ", "Upgrade");
    var hs := [h, g];
    assert Asks(hs, UPGRADING) && Offers(hs) by { TwoHeaders(h, g); }
    assert hs[0] == h && hs[1] == g;
  }

  lemma TwoHeaders(h: Header, g: Header)
    ensures OffersIn(h) ==> Offers([h, g])
    ensures forall word :: AsksIn(g, word) ==> Asks([h, g], word)
  {
    hide AsksIn, OffersIn;
    assert [h, g][0] == h && [h, g][1] == g;
  }

  lemma UpgradeHeader()
    ensures var h := Header("Upgrade", " ", "websocket");
            IsHeader(h) && OffersIn(h)
  {
    LoweredIs("Upgrade", UPGRADE);
  }

  lemma ConnectionHeader()
    ensures var g := Header("Connection", " ", "Upgrade");
            IsHeader(g) && AsksIn(g, UPGRADING)
  {
    hide Items, Trim, IsWord, Lost;
    LoweredIs("Connection", CONNECTION);
    UpgradeItem();
    assert !Lost(["Upgrade"], 0) by { NotLost("Upgrade"); }
    assert Items("Upgrade")[0] == "Upgrade";
  }

  lemma UpgradeItem()
    ensures Items("Upgrade") == ["Upgrade"] && IsWord(Trim("Upgrade"), UPGRADING)
  {
    hide Items;
    NoItems();
    ItemsFeed("", "Upgrade");
    assert "" + "Upgrade" == "Upgrade" && [""][..0] + ["Upgrade"] == ["Upgrade"];
    assert Trim("Upgrade") == "Upgrade" && "Upgrade"[..7] == "Upgrade" && "Upgrade"[7..] == "";
  }

  lemma NotLost(u: string)
    ensures !Lost([u], 0)
  {
  }
}
