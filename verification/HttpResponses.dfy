/** Whole responses: a printed response is parsed into its parts, whether a length, the chunked
    coding, its status or the end of the connection delimits its body.
 */
module HttpResponses {
  import opened Sequences
  import opened Options
  import opened HttpTypes
  import opened HttpStep
  import opened HttpInvariant
  import opened HttpRun
  import opened HttpAgree
  import opened HttpReads
  import opened HttpValues
  import opened HttpBodies
  import opened HttpHeads

  /** A response; `lead` is the empty lines in front of it, `space` what stands behind its version, and
      no reason means no space for one either. */
  datatype HttpResponse = HttpResponse(
    lead: string, major: char, minor: char, space: string, code: string, reason: Option<string>, eol: string,
    headers: seq<Header>, content: Content)

  /** Any digits of at most 999. */
  predicate IsCode(code: string) { IsDecimal(code) && Decimal(code) <= 999 }

  predicate IsReason(reason: string) { CR !in reason && LF !in reason }

  predicate IsLine(r: HttpResponse) {
    && IsLead(r.lead) && IsNum(r.major) && IsNum(r.minor) && IsSpace(r.space) && IsCode(r.code) && IsEol(r.eol)
    && (r.reason.Some? ==> IsReason(r.reason.value))
  }

  predicate IsResponse(r: HttpResponse) { IsLine(r) && IsBlock(r.headers, r.content) }

  // ---------------------------------------------------------------- status lines

  function ReasonText(reason: Option<string>): string { if reason.Some? then " " + reason.value else "" }

  /** What the client is given for the reason. */
  function Phrase(reason: Option<string>): string { if reason.Some? then reason.value else "" }

  function StatusLine(r: HttpResponse): string {
    r.lead + "HTTP" + (['/', r.major, '.', r.minor] + r.space) + r.code + (ReasonText(r.reason) + r.eol)
  }

  lemma StepOfLead(cfg: Settings, p: Parser, ch: char)
    requires p.f.state == StartRes && (ch == CR || ch == LF)
    ensures Step(cfg, p, ch) == Break(p.f, None)
  {
  }

  lemma {:induction false} LeadReads(cfg: Settings, p: Parser, lead: string)
    requires p.f.state == StartRes && IsLead(lead) && Room(cfg, p, |lead|)
    ensures Reads(cfg, p, lead, p.(f := p.f.(nread := p.f.nread + |lead|)))
  {
    hide Run, Step;
    if lead == "" {
      ReadsNothing(cfg, p);
    } else {
      var n := |lead| - 1;
      LeadReads(cfg, p, lead[..n]);
      var q := p.(f := p.f.(nread := p.f.nread + n));
      StepOfLead(cfg, Counted(q), lead[n]);
      Silent(cfg, p, lead[..n], q, lead[n], p.f.(nread := p.f.nread + |lead|));
      assert lead[..n] + [lead[n]] == lead;
    }
  }

  /** A byte of the status line that makes no callback. */
  lemma StatusByte(cfg: Settings, p: Parser, a: string, q: Parser, ch: char, f: Fields)
    requires Reads(cfg, p, a, q) && InStatusLine(q.f.state) && Room(cfg, q, 1)
    requires StepStatusLine(q.f, ch) == Break(f.(nread := q.f.nread), None) && f.nread == q.f.nread + 1
    ensures Reads(cfg, p, a + [ch], Parser(f, q.trace))
  {
    hide Run, Step;
    StepOfStatusLine(cfg, Counted(q), ch);
    Silent(cfg, p, a, q, ch, f);
  }

  lemma StepOfStatusLine(cfg: Settings, p: Parser, ch: char)
    requires InStatusLine(p.f.state)
    ensures Step(cfg, p, ch) == StepStatusLine(p.f, ch)
  {
  }

  lemma StepOfStart(cfg: Settings, p: Parser)
    requires p.f.state == StartRes
    ensures Step(cfg, p, 'H') == Break(p.f.(flags := {}, contentLength := NO_LENGTH, state := ResH), Some(MessageBegin))
  {
  }

  /** The parser after the letters "HTTP". */
  function AfterLetters(p: Parser): Parser {
    Parser(p.f.(flags := {}, contentLength := NO_LENGTH, state := ResHTTP, nread := p.f.nread + 4),
           p.trace + [MessageBegin])
  }

  lemma LettersRead(cfg: Settings, p: Parser)
    requires p.f.state == StartRes && Room(cfg, p, 4)
    ensures Reads(cfg, p, "HTTP", AfterLetters(p))
  {
    hide Run, Step, Reads;
    ReadsNothing(cfg, p);
    StepOfStart(cfg, Counted(p));
    ReadsByte(cfg, p, "", p, 'H');
    assert "" + ['H'] == "H";
    var q := After(Counted(p), Step(cfg, Counted(p), 'H'));
    var f2 := q.f.(state := ResHT, nread := p.f.nread + 2);
    StatusByte(cfg, p, "H", q, 'T', f2);
    assert "H" + ['T'] == "HT";
    var f3 := q.f.(state := ResHTT, nread := p.f.nread + 3);
    StatusByte(cfg, p, "HT", Parser(f2, q.trace), 'T', f3);
    assert "HT" + ['T'] == "HTT";
    var f4 := q.f.(state := ResHTTP, nread := p.f.nread + 4);
    StatusByte(cfg, p, "HTT", Parser(f3, q.trace), 'P', f4);
    assert "HTT" + ['P'] == "HTTP";
  }

  /** Spaces in front of a status code. */
  lemma {:induction false} SpacesRead(cfg: Settings, p: Parser, spaces: string)
    requires p.f.state == ResFirstStatusCode && Room(cfg, p, |spaces|)
    requires forall i :: 0 <= i < |spaces| ==> spaces[i] == ' '
    ensures Reads(cfg, p, spaces, p.(f := p.f.(nread := p.f.nread + |spaces|)))
  {
    hide Run, Step;
    if spaces == "" {
      ReadsNothing(cfg, p);
    } else {
      var n := |spaces| - 1;
      SpacesRead(cfg, p, spaces[..n]);
      var q := p.(f := p.f.(nread := p.f.nread + n));
      StatusByte(cfg, p, spaces[..n], q, ' ', p.f.(nread := p.f.nread + |spaces|));
      assert spaces[..n] + [' '] == spaces;
    }
  }

  lemma VersionReads(cfg: Settings, p: Parser, major: char, minor: char, space: string)
    requires p.f.state == ResHTTP && IsNum(major) && IsNum(minor) && IsSpace(space) && Room(cfg, p, 4 + |space|)
    ensures Reads(cfg, p, ['/', major, '.', minor] + space,
                  Parser(p.f.(state := ResFirstStatusCode, httpMajor := Digit(major), httpMinor := Digit(minor),
                              nread := p.f.nread + 4 + |space|), p.trace))
  {
    hide Run, Step, Reads;
    ReadsNothing(cfg, p);
    var f1 := p.f.(state := ResHttpMajor, nread := p.f.nread + 1);
    StatusByte(cfg, p, "", p, '/', f1);
    assert "" + ['/'] == ['/'];
    var f2 := f1.(state := ResHttpDot, nread := p.f.nread + 2, httpMajor := Digit(major));
    StatusByte(cfg, p, ['/'], Parser(f1, p.trace), major, f2);
    assert ['/'] + [major] == ['/', major];
    var f3 := f2.(state := ResHttpMinor, nread := p.f.nread + 3);
    StatusByte(cfg, p, ['/', major], Parser(f2, p.trace), '.', f3);
    assert ['/', major] + ['.'] == ['/', major, '.'];
    var f4 := f3.(state := ResHttpEnd, nread := p.f.nread + 4, httpMinor := Digit(minor));
    StatusByte(cfg, p, ['/', major, '.'], Parser(f3, p.trace), minor, f4);
    assert ['/', major, '.'] + [minor] == ['/', major, '.', minor];
    var f5 := f4.(state := ResFirstStatusCode, nread := p.f.nread + 5);
    StatusByte(cfg, p, ['/', major, '.', minor], Parser(f4, p.trace), ' ', f5);
    SpacesRead(cfg, Parser(f5, p.trace), space[1..]);
    ReadsThen(cfg, p, ['/', major, '.', minor] + [' '], Parser(f5, p.trace), space[1..],
              Parser(f5.(nread := p.f.nread + 4 + |space|), p.trace));
    assert ['/', major, '.', minor] + [' '] + space[1..] == ['/', major, '.', minor] + space;
  }

  lemma CodeStep(f: Fields, ch: char)
    requires IsNum(ch)
    ensures f.state == ResFirstStatusCode ==>
              StepStatusLine(f, ch) == Break(f.(statusCode := Digit(ch), state := ResStatusCode), None)
    ensures f.state == ResStatusCode ==>
              var code := f.statusCode * 10 + Digit(ch);
              StepStatusLine(f, ch) == if code > 999 then Error(InvalidStatus) else Break(f.(statusCode := code), None)
  {
  }

  /** The digits of a status are accepted exactly up to 999, and then stored exactly. */
  lemma {:induction false} CodeAccepted(cfg: Settings, p: Parser, code: string)
    requires p.f.state == ResFirstStatusCode && IsDecimal(code) && Room(cfg, p, |code|)
    ensures if Decimal(code) <= 999 then
              Reads(cfg, p, code,
                    Parser(p.f.(state := ResStatusCode, statusCode := Decimal(code), nread := p.f.nread + |code|),
                        p.trace))
            else Run(cfg, p, code).Failed? && Run(cfg, p, code).e == InvalidStatus
  {
    hide Run, Step, StepStatusLine;
    var n := |code| - 1;
    var v, ch := code[..n], code[n];
    assert code == v + [ch] && Decimal(code) == Decimal(v) * 10 + Digit(ch);
    if n == 0 {
      assert v == "" && code == "" + [ch];
      ReadsNothing(cfg, p);
      CodeStep(p.f, ch);
      StatusByte(cfg, p, "", p, ch, p.f.(state := ResStatusCode, statusCode := Digit(ch), nread := p.f.nread + 1));
    } else {
      CodeAccepted(cfg, p, v);
      hide Decimal;
      if Decimal(v) <= 999 {
        var q := Parser(p.f.(state := ResStatusCode, statusCode := Decimal(v), nread := p.f.nread + n), p.trace);
        CodeStep(q.f, ch);
        CodeStep(Counted(q).f, ch);
        if Decimal(code) <= 999 {
          StatusByte(cfg, p, v, q, ch, q.f.(statusCode := Decimal(code), nread := p.f.nread + |code|));
        } else {
          StepOfStatusLine(cfg, Counted(q), ch);
          FailsByte(cfg, p, v, q, ch);
        }
      } else {
        RunStays(cfg, p, code, n);
      }
    }
  }

  /** The parser in the reason phrase. */
  function InReason(p: Parser, reason: string): Parser {
    Parser(p.f.(state := ResStatus, index := 0, nread := p.f.nread + |reason|), Emit(p.trace, Data(Status, reason)))
  }

  lemma {:induction false} ReasonReads(cfg: Settings, p: Parser, reason: string)
    requires p.f.state == ResStatusStart && IsReason(reason) && reason != "" && Room(cfg, p, |reason|)
    ensures Reads(cfg, p, reason, InReason(p, reason))
  {
    hide Run, Step, Emit;
    var n := |reason| - 1;
    var v, ch := reason[..n], reason[n];
    assert reason == v + [ch] && ch != CR && ch != LF;
    if n == 0 {
      ReadsNothing(cfg, p);
      StepOfStatusLine(cfg, Counted(p), ch);
      ReadsByte(cfg, p, "", p, ch);
      assert v == "" && reason == [ch];
    } else {
      ReasonReads(cfg, p, v);
      var q := InReason(p, v);
      StepOfStatusLine(cfg, Counted(q), ch);
      ReadsByte(cfg, p, v, q, ch);
      EmitTwice(p.trace, Status, v, [ch]);
    }
  }

  /** The line end behind a reason that has begun. */
  lemma StatusEolReads(cfg: Settings, p: Parser, a: string, q: Parser, eol: string)
    requires Reads(cfg, p, a, q) && q.f.state == ResStatus && IsEol(eol) && Room(cfg, q, |eol|)
    ensures Reads(cfg, p, a + eol, Parser(q.f.(state := HeaderFieldStart, nread := q.f.nread + |eol|), q.trace))
  {
    hide Run, Step;
    if eol == CRLF {
      var f1 := q.f.(state := ResLineAlmostDone, nread := q.f.nread + 1);
      StatusByte(cfg, p, a, q, CR, f1);
      StatusByte(cfg, p, a + [CR], Parser(f1, q.trace), LF, q.f.(state := HeaderFieldStart, nread := q.f.nread + 2));
      assert a + eol == a + [CR] + [LF];
    } else {
      StatusByte(cfg, p, a, q, LF, q.f.(state := HeaderFieldStart, nread := q.f.nread + 1));
      assert a + eol == a + [LF];
    }
  }

  /** The line end where no reason has begun: behind the code or behind the space. */
  lemma NoReasonReads(cfg: Settings, p: Parser, eol: string)
    requires (p.f.state == ResStatusCode || p.f.state == ResStatusStart) && IsEol(eol) && Room(cfg, p, |eol|)
    ensures Reads(cfg, p, eol,
                  Parser(p.f.(state := HeaderFieldStart, index := 0, nread := p.f.nread + |eol|),
                         Emit(p.trace, Data(Status, ""))))
  {
    hide Run, Step, Emit, Exec;
    var ch := eol[0];
    var c := Counted(p);
    var q := Parser(c.f.(state := ResStatus, index := 0), Emit(p.trace, Data(Status, "")));
    ReadsNothing(cfg, p);
    LastByte(cfg, p, "", p, ch);
    NoReasonExec(cfg, c, ch);
    StepOfStatusLine(cfg, q, ch);
    ExecOnce(cfg, q, ch, 0);
    assert "" + [ch] == [ch];
    if eol == CRLF {
      var f1 := c.f.(state := ResLineAlmostDone, index := 0);
      StatusByte(cfg, p, [CR], Parser(f1, q.trace), LF, f1.(state := HeaderFieldStart, nread := p.f.nread + 2));
      assert eol == [CR] + [LF];
    } else {
      assert eol == [LF];
    }
  }

  lemma NoReasonExec(cfg: Settings, c: Parser, ch: char)
    requires (c.f.state == ResStatusCode || c.f.state == ResStatusStart) && (ch == CR || ch == LF)
    ensures Exec(cfg, c, ch, 0) ==
            Exec(cfg, Parser(c.f.(state := ResStatus, index := 0), Emit(c.trace, Data(Status, ""))), ch, 0)
  {
    hide Step, Emit, Exec;
    StepOfStatusLine(cfg, c, ch);
    ExecOnce(cfg, c, ch, 0);
    if c.f.state == ResStatusCode {
      var d := After(c, Step(cfg, c, ch));
      StepOfStatusLine(cfg, d, ch);
      ExecOnce(cfg, d, ch, 0);
    }
  }

  /** What follows the code in a status line. */
  lemma ReasonLineReads(cfg: Settings, p: Parser, reason: Option<string>, eol: string)
    requires p.f.state == ResStatusCode && (reason.Some? ==> IsReason(reason.value)) && IsEol(eol)
    requires Room(cfg, p, |ReasonText(reason) + eol|)
    ensures Reads(cfg, p, ReasonText(reason) + eol,
                  Parser(p.f.(state := HeaderFieldStart, index := 0, nread := p.f.nread + |ReasonText(reason) + eol|),
                         Emit(p.trace, Data(Status, Phrase(reason)))))
  {
    hide Run, Step, Emit, IsEol;
    if reason == None {
      NoReasonReads(cfg, p, eol);
      assert ReasonText(reason) + eol == eol;
    } else {
      var text := reason.value;
      ReadsNothing(cfg, p);
      StatusByte(cfg, p, "", p, ' ', p.f.(state := ResStatusStart, nread := p.f.nread + 1));
      var a := Parser(p.f.(state := ResStatusStart, nread := p.f.nread + 1), p.trace);
      assert "" + [' '] == " ";
      if text == "" {
        NoReasonReads(cfg, a, eol);
        ReadsThen(cfg, p, " ", a, eol,
                  Parser(a.f.(state := HeaderFieldStart, index := 0, nread := a.f.nread + |eol|),
                         Emit(a.trace, Data(Status, ""))));
        assert ReasonText(reason) + eol == " " + eol;
      } else {
        ReasonReads(cfg, a, text);
        var b := InReason(a, text);
        ReadsThen(cfg, p, " ", a, text, b);
        StatusEolReads(cfg, p, " " + text, b, eol);
      }
    }
  }

  /** The parser after a status line. */
  function AfterStatusLine(p: Parser, r: HttpResponse): Parser
    requires IsLine(r)
  {
    Parser(p.f.(flags := {}, contentLength := NO_LENGTH, httpMajor := Digit(r.major), httpMinor := Digit(r.minor),
                statusCode := Decimal(r.code), index := 0, state := HeaderFieldStart,
                nread := p.f.nread + |StatusLine(r)|),
           p.trace + [MessageBegin, Data(Status, Phrase(r.reason))])
  }

  lemma StatusLineReads(cfg: Settings, p: Parser, r: HttpResponse)
    requires p.f.state == StartRes && IsLine(r) && Room(cfg, p, |StatusLine(r)|)
    ensures Reads(cfg, p, StatusLine(r), AfterStatusLine(p, r)) && BeforeHeaders(AfterStatusLine(p, r))
  {
    hide Run, Step, Reads, Decimal, IsReason, IsEol, IsLead, ReasonText, Phrase;
    LeadReads(cfg, p, r.lead);
    var o := p.(f := p.f.(nread := p.f.nread + |r.lead|));
    LettersRead(cfg, o);
    var a := AfterLetters(o);
    ReadsThen(cfg, p, r.lead, o, "HTTP", a);
    VersionReads(cfg, a, r.major, r.minor, r.space);
    var version := ['/', r.major, '.', r.minor] + r.space;
    var b := Parser(a.f.(state := ResFirstStatusCode, httpMajor := Digit(r.major), httpMinor := Digit(r.minor),
                         nread := a.f.nread + 4 + |r.space|), a.trace);
    ReadsThen(cfg, p, r.lead + "HTTP", a, version, b);
    CodeAccepted(cfg, b, r.code);
    var c := Parser(b.f.(state := ResStatusCode, statusCode := Decimal(r.code), nread := b.f.nread + |r.code|),
        b.trace);
    ReadsThen(cfg, p, r.lead + "HTTP" + version, b, r.code, c);
    ReasonLineReads(cfg, c, r.reason, r.eol);
    var d := Parser(c.f.(state := HeaderFieldStart, index := 0, nread := c.f.nread + |ReasonText(r.reason) + r.eol|),
                    Emit(c.trace, Data(Status, Phrase(r.reason))));
    ReadsThen(cfg, p, r.lead + "HTTP" + version + r.code, c, ReasonText(r.reason) + r.eol, d);
    assert d.trace == p.trace + [MessageBegin, Data(Status, Phrase(r.reason))];
  }

  // ---------------------------------------------------------------- whole responses

  function HeadText(r: HttpResponse): string { StatusLine(r) + BlockText(r.headers, r.content, r.eol) }

  /** The body has no other end than that of the connection. */
  predicate NeedsEnd(r: HttpResponse)
    requires IsLine(r)
  {
    var code := Decimal(r.code);
    r.content.NoContent? && code / 100 != 1 && code != 204 && code != 304
  }

  /** The connection stays open behind this response. */
  predicate Keeps(r: HttpResponse)
    requires IsLine(r)
  {
    KeepsOpen(Digit(r.major), Digit(r.minor), r.headers) && !NeedsEnd(r)
  }

  /** What follows is another protocol: only a response with the code 101 is an upgrade. */
  predicate Upgrades(r: HttpResponse)
    requires IsLine(r)
  {
    Offers(r.headers) && Asks(r.headers, UPGRADING) && Decimal(r.code) == 101
  }

  predicate StopsAtHead(r: HttpResponse)
    requires IsLine(r)
  {
    Upgrades(r) && IsEmpty(r.content)
  }

  function ResponseText(r: HttpResponse): string
    requires IsLine(r)
  {
    if StopsAtHead(r) then HeadText(r) else HeadText(r) + ContentText(r.content)
  }

  /** What the parser's public fields say at the end of the headers; a response leaves the method
      as it was. */
  function HeadOf(r: HttpResponse, meth: Method): HeadView
    requires IsLine(r)
  {
    HeadView(Response, BlockFlags(r.headers, r.content), FramingLength(r.content), Digit(r.major), Digit(r.minor),
             Decimal(r.code), meth, Upgrades(r))
  }

  function LineEvents(r: HttpResponse): seq<Event> {
    [MessageBegin, Data(Status, Phrase(r.reason))] + BlockEvents(r.headers, r.content)
  }

  function HeadEvents(r: HttpResponse, meth: Method): seq<Event>
    requires IsLine(r)
  {
    LineEvents(r) + [HeadersComplete(HeadOf(r, meth))]
  }

  /** Where a client's parser waits for a response; it has never read a request. */
  predicate Waits(cfg: Settings, p: Parser) {
    p.f.state == StartRes && p.f.kind == Response && p.f.meth != Connect && Reachable(cfg, p)
  }

  /** The parser before the empty line of a response. */
  function ResponseLines(p: Parser, r: HttpResponse): Parser
    requires IsResponse(r)
  {
    AfterBlock(AfterStatusLine(p, r), r.headers, r.content, r.eol)
  }

  /** The fields after the header block. */
  lemma ResponseLinesAre(p: Parser, r: HttpResponse)
    requires p.f.kind == Response && IsResponse(r)
    ensures var q := ResponseLines(p, r);
            && q.trace == p.trace + LineEvents(r)
            && q.f.flags == BlockFlags(r.headers, r.content) && q.f.contentLength == FramingLength(r.content)
            && q.f.kind == Response && q.f.meth == p.f.meth && q.f.statusCode == Decimal(r.code)
            && q.f.httpMajor == Digit(r.major) && q.f.httpMinor == Digit(r.minor)
  {
    hide StatusLine, LinesText, BlockEvents, BlockFlags, AreHeaders, Decimal, IsFraming, Phrase, AfterHeaders,
      AfterFraming, AfterBlock, IsReason, IsLead, IsCode;
    BlockTells(AfterStatusLine(p, r), r.headers, r.content, r.eol);
  }

  lemma ResponseLinesTell(p: Parser, r: HttpResponse)
    requires p.f.kind == Response && p.f.meth != Connect && IsResponse(r)
    ensures var q := ResponseLines(p, r);
            && CallbackView(q.f) == HeadOf(r, p.f.meth) && UpgradeOf(q.f) == Upgrades(r)
            && q.trace == p.trace + LineEvents(r)
            && q.f.flags == BlockFlags(r.headers, r.content) && q.f.contentLength == FramingLength(r.content)
            && q.f.kind == Response && q.f.meth == p.f.meth && q.f.statusCode == Decimal(r.code)
            && q.f.httpMajor == Digit(r.major) && q.f.httpMinor == Digit(r.minor)
  {
    hide ResponseLines, LineEvents, BlockFlags, AreHeaders, Asks, Offers, Decimal, IsFraming, IsLine, UpgradeOf;
    ResponseLinesAre(p, r);
    HeadDecides(ResponseLines(p, r), r.headers, r.content);
  }

  /** What the headers of a response, once complete, leave. */
  lemma ResponseHeadTells(p: Parser, r: HttpResponse)
    requires p.f.kind == Response && p.f.meth != Connect && IsResponse(r)
    ensures var q := HeadDone(ResponseLines(p, r), GoOn);
            && q.f.View() == HeadOf(r, p.f.meth) && q.trace == p.trace + HeadEvents(r, p.f.meth)
            && Announces(q, r.content) && q.f.upgrade == Upgrades(r)
            && (q.f.MessageNeedsEof() <==> NeedsEnd(r)) && (q.f.ShouldKeepAlive() <==> Keeps(r))
            && q.f.kind == Response && q.f.meth == p.f.meth
  {
    hide ResponseLines, BlockEvents, BlockFlags, AreHeaders, Asks, Offers, Decimal, IsFraming, IsLine;
    ResponseLinesTell(p, r);
    BlockOfHead(r.headers, r.content);
    LengthsFit(r.headers, r.content);
    var q := HeadDone(ResponseLines(p, r), GoOn);
    HeadDecides(q, r.headers, r.content);
    assert q.trace == p.trace + HeadEvents(r, p.f.meth);
    assert q.trace[|q.trace| - 1] == HeadersComplete(HeadOf(r, p.f.meth));
  }

  lemma LengthsFit(hs: seq<Header>, c: Content)
    requires IsBlock(hs, c)
    ensures FramingLength(c) == NO_LENGTH <==> !c.Fixed?
  {
    hide AreHeaders, IsLength, IsCoding, IsGap, IsValue;
  }

  /** The head of a response is read, if there is room for it. */
  lemma ResponseHeadReads(cfg: Settings, p: Parser, r: HttpResponse)
    requires p.f.state == StartRes && IsResponse(r) && Room(cfg, p, |HeadText(r)|)
    ensures var q := ResponseLines(p, r);
            Run(cfg, p, HeadText(r)) == HeadEnds(HeadDone(q, ReplyTo(cfg, q)), |HeadText(r)|)
  {
    hide Run, AreHeaders, IsFraming, AfterBlock, BlockText, StatusLine, BeforeHeaders, HeadEnds, HeadDone, ReplyTo,
      Decimal, IsReason, IsLead;
    StatusLineReads(cfg, p, r);
    HeadReads(cfg, p, StatusLine(r), AfterStatusLine(p, r), r.headers, r.content, r.eol);
  }

  /** A response whose end its framing or its status tells is read into its parts. If it is an upgrade
      the parser leaves right behind it; otherwise it goes on, waiting for the next response exactly
      if the connection stays open. */
  lemma ResponseReads(cfg: Settings, p: Parser, r: HttpResponse)
    requires Waits(cfg, p) && IsResponse(r) && LinesFit(cfg, r.content) && !NeedsEnd(r)
    requires AlwaysGoesOn(cfg) && Room(cfg, p, |HeadText(r)|)
    ensures var q := BehindMessage(HeadDone(ResponseLines(p, r), GoOn), r.content);
            && Run(cfg, p, ResponseText(r)) == (if Upgrades(r) then Exited(q, |ResponseText(r)|) else Running(q))
            && q.trace == p.trace + HeadEvents(r, p.f.meth)
                          + (if StopsAtHead(r) then [] else ContentEvents(r.content)) + [MessageComplete(Keeps(r))]
            && q.f.state == (if Keeps(r) then StartRes else Dead)
  {
    hide Run, Reachable, HeadText, HeadEvents, AreHeaders, IsLine, IsFraming, LinesFit, ResponseLines, BehindMessage,
      Announces, HeadEnds, ContentText, Upgrades, Keeps, NeedsEnd, HeadOf, EndsHere, HeadDone, ReplyTo;
    ResponseHeadReads(cfg, p, r);
    ResponseHeadTells(p, r);
    GoesOn(cfg, p, r);
    var h := HeadDone(ResponseLines(p, r), GoOn);
    MessageReads(cfg, p, HeadText(r), h, r.content);
    MessageTells(h, r.content);
    EndsHereWhen(h, r.content);
  }

  lemma GoesOn(cfg: Settings, p: Parser, r: HttpResponse)
    requires AlwaysGoesOn(cfg) && IsResponse(r)
    ensures ReplyTo(cfg, ResponseLines(p, r)) == GoOn
  {
    hide ResponseLines, IsResponse;
  }

  /** Response round trip, in any buffers. */
  lemma ResponseRoundTrip(cfg: Settings, p: Parser, r: HttpResponse, buffers: seq<string>) returns (q: Parser)
    requires Waits(cfg, p) && IsResponse(r) && AlwaysGoesOn(cfg) && Room(cfg, p, |HeadText(r)|)
    requires !NeedsEnd(r) && LinesFit(cfg, r.content) && Flatten(buffers) == ResponseText(r)
    ensures RunAll(cfg, p, buffers) == if Upgrades(r) then Exited(q, |ResponseText(r)|) else Running(q)
    ensures q.trace == p.trace + HeadEvents(r, p.f.meth) + (if StopsAtHead(r) then [] else ContentEvents(r.content))
                       + [MessageComplete(Keeps(r))]
    ensures q.f.state == if Keeps(r) then StartRes else Dead
  {
    hide Run, AlwaysGoesOn, IsResponse, ResponseText, HeadEvents, BehindMessage, ResponseLines, Keeps, Upgrades,
      NeedsEnd, StopsAtHead, LinesFit, IsLine, HeadText, HeadDone;
    ResponseReads(cfg, p, r);
    q := BehindMessage(HeadDone(ResponseLines(p, r), GoOn), r.content);
    CutIndependence(cfg, p, buffers);
  }

  /** A response that only the end of the connection ends: whatever follows its head is its body,
      and then the message is complete and the connection closed. */
  lemma UntilEndRoundTrip(cfg: Settings, p: Parser, r: HttpResponse, data: string, buffers: seq<string>)
    returns (q: Parser)
    requires Waits(cfg, p) && IsResponse(r) && AlwaysGoesOn(cfg) && Room(cfg, p, |HeadText(r)|)
    requires NeedsEnd(r) && !Upgrades(r) && Flatten(buffers) == HeadText(r) + data
    ensures RunAll(cfg, p, buffers) == Running(q) && EndOfInput(q).Running?
    ensures var body := if data == "" then [] else [Data(Body, data)];
            EndOfInput(q).p.trace == p.trace + HeadEvents(r, p.f.meth) + body + [MessageComplete(false)]
  {
    hide Run, AlwaysGoesOn, AreHeaders, IsFraming, IsLine, ResponseLines, HeadText, HeadEvents, Upgrades, Keeps,
      HeadDone, ReplyTo, HeadOf;
    ResponseHeadReads(cfg, p, r);
    ResponseHeadTells(p, r);
    GoesOn(cfg, p, r);
    var h := HeadDone(ResponseLines(p, r), GoOn);
    var b := BodyBegins(h);
    assert data[..0] == "" && data[..|data|] == data && data[0..|data|] == data;
    ReadsNothing(cfg, b);
    RunBody(cfg, b, data, 0, |data|, b);
    q := AfterBody(b, data);
    ReadsThen(cfg, p, HeadText(r), b, data, q);
    CutIndependence(cfg, p, buffers);
  }

  /** If the client answers that there is no body, as it does for a response to HEAD, the message is
      complete at the end of its head, whatever it announces. */
  lemma SkippedResponse(cfg: Settings, p: Parser, r: HttpResponse) returns (q: Parser)
    requires p.f.state == StartRes && p.f.kind == Response && p.f.meth != Connect && IsResponse(r)
    requires Room(cfg, p, |HeadText(r)|)
    requires cfg.onHeadersComplete(HeadOf(r, p.f.meth), p.trace + LineEvents(r)) != GoOn
    ensures var reply := cfg.onHeadersComplete(HeadOf(r, p.f.meth), p.trace + LineEvents(r));
            Run(cfg, p, HeadText(r)) ==
            if Upgrades(r) || reply == NoBodyUpgrade then Exited(q, |HeadText(r)|) else Running(q)
    ensures var open := KeepsOpen(Digit(r.major), Digit(r.minor), r.headers);
            && q.trace == p.trace + HeadEvents(r, p.f.meth) + [MessageComplete(open)]
            && q.f.state == if open then StartRes else Dead
  {
    hide Run, IsLine, AreHeaders, IsFraming, ResponseLines, LineEvents, HeadText, BlockFlags, Upgrades, HeadOf,
      KeepsOpen;
    ResponseHeadReads(cfg, p, r);
    ResponseLinesTell(p, r);
    BlockOfHead(r.headers, r.content);
    var lines := ResponseLines(p, r);
    HeadDecides(lines, r.headers, r.content);
    var h := HeadDone(lines, ReplyTo(cfg, lines));
    SkipDecides(lines, h, r.headers);
    q := MessageOver(h);
    assert h.trace == p.trace + HeadEvents(r, p.f.meth);
  }

  lemma SkipDecides(q: Parser, h: Parser, hs: seq<Header>)
    requires h.f.flags == q.f.flags + {SkipBody} && h.f.httpMajor == q.f.httpMajor && h.f.httpMinor == q.f.httpMinor
    requires (Close in q.f.flags <==> Asks(hs, CLOSE)) && (KeepAlive in q.f.flags <==> Asks(hs, KEEP_ALIVE))
    ensures h.f.ShouldKeepAlive() == KeepsOpen(h.f.httpMajor, h.f.httpMinor, hs)
  {
    hide Asks;
  }
}
