/** Whole requests: printing any list of requests one after the other and parsing the text,
    in any buffers, gives back each request's parts in order, exactly if every head fits the
    header limit and every request but the last leaves the connection open.
 */
module HttpMessages {
  import opened Sequences
  import opened Options
  import opened HttpTypes
  import opened HttpStep
  import opened HttpInvariant
  import opened HttpRun
  import opened HttpAgree
  import opened HttpReads
  import opened HttpNames
  import opened HttpValues
  import opened HttpBodies
  import opened HttpHeads

  /** The end of a request line: nothing at all, or spaces, a protocol and two digits. */
  datatype Version =
    | Simple
    | Http(space: string, major: char, minor: char)
    | Ice(space: string, major: char, minor: char)

  /** A request; `lead` is the empty lines in front of it, `space` what stands behind its method. */
  datatype HttpRequest = HttpRequest(
    lead: string, meth: Method, space: string, url: string, version: Version, eol: string, headers: seq<Header>,
    content: Content)

  // ---------------------------------------------------------------- request lines

  /** The URL automaton on a whole URL. */
  function UrlWalk(m: Method, url: string): State {
    if url == "" then if m == Connect then ReqServerStart else ReqSpacesBeforeUrl
    else UrlChar(UrlWalk(m, url[..|url| - 1]), url[|url| - 1])
  }

  predicate IsUrl(m: Method, url: string) { url != "" && UrlEndableState(UrlWalk(m, url)) }

  /** Only a SOURCE request may say ICE. */
  predicate IsVersion(m: Method, v: Version) {
    v.Simple? || (IsSpace(v.space) && IsNum(v.major) && IsNum(v.minor) && (v.Ice? ==> m == Source))
  }

  function VersionText(v: Version): string {
    match v
    case Simple => ""
    case Http(space, major, minor) => space + "HTTP/" + [major, '.', minor]
    case Ice(space, major, minor) => space + "ICE/" + [major, '.', minor]
  }

  /** A request without a version has version 0.9. */
  function Major(v: Version): nat { if !v.Simple? && IsNum(v.major) then Digit(v.major) else 0 }

  function Minor(v: Version): nat { if !v.Simple? && IsNum(v.minor) then Digit(v.minor) else 9 }

  predicate IsLine(r: HttpRequest) {
    IsLead(r.lead) && IsSpace(r.space) && IsUrl(r.meth, r.url) && IsVersion(r.meth, r.version) && IsEol(r.eol)
  }

  function RequestLine(r: HttpRequest): string {
    r.lead + (MethodString(r.meth) + r.space) + r.url + (VersionText(r.version) + r.eol)
  }

  lemma StepOfLead(cfg: Settings, p: Parser, ch: char)
    requires p.f.state == StartReq && (ch == CR || ch == LF)
    ensures Step(cfg, p, ch) == Break(p.f, None)
  {
  }

  /** Empty lines in front of a request are passed over, but counted. */
  lemma {:induction false} LeadReads(cfg: Settings, p: Parser, lead: string)
    requires p.f.state == StartReq && IsLead(lead) && Room(cfg, p, |lead|)
    ensures Reads(cfg, p, lead, p.(f := p.f.(nread := p.f.nread + |lead|)))
  {
    hide Run, Step;
    if lead == "" {
      ReadsNothing(cfg, p);
    } else {
      var n := |lead| - 1;
      LeadReads(cfg, p, lead[..n]);
      var q := p.(f := p.f.(nread := p.f.nread + n));
      StepOfLead(cfg, Counted(q), lead[n]);
      Silent(cfg, p, lead[..n], q, lead[n], p.f.(nread := p.f.nread + |lead|));
      assert lead[..n] + [lead[n]] == lead;
    }
  }

  /** Spaces behind the first one. */
  lemma {:induction false} SpacesRead(cfg: Settings, p: Parser, spaces: string)
    requires p.f.state == ReqSpacesBeforeUrl || p.f.state == ReqHttpStart
    requires Room(cfg, p, |spaces|) && forall i :: 0 <= i < |spaces| ==> spaces[i] == ' '
    ensures Reads(cfg, p, spaces, p.(f := p.f.(nread := p.f.nread + |spaces|)))
  {
    hide Run, Step;
    if spaces == "" {
      ReadsNothing(cfg, p);
    } else {
      var n := |spaces| - 1;
      SpacesRead(cfg, p, spaces[..n]);
      var q := p.(f := p.f.(nread := p.f.nread + n));
      SpaceStep(cfg, Counted(q));
      Silent(cfg, p, spaces[..n], q, ' ', p.f.(nread := p.f.nread + |spaces|));
      assert spaces[..n] + [' '] == spaces;
    }
  }

  lemma SpaceStep(cfg: Settings, p: Parser)
    requires p.f.state == ReqSpacesBeforeUrl || p.f.state == ReqHttpStart
    ensures Step(cfg, p, ' ') == Break(p.f, None)
  {
  }

  /** The parser after the method and the space behind it. */
  function AfterMethodSpace(p: Parser, m: Method, space: string): Parser {
    Parser(p.f.(flags := {}, contentLength := NO_LENGTH, meth := m, index := |MethodString(m)| + 1,
                state := ReqSpacesBeforeUrl, nread := p.f.nread + |MethodString(m) + space|),
           Emit(p.trace, MessageBegin))
  }

  lemma MethodSpaceReads(cfg: Settings, p: Parser, m: Method, space: string)
    requires p.f.state == StartReq && IsSpace(space) && Room(cfg, p, |MethodString(m) + space|)
    ensures Reads(cfg, p, MethodString(m) + space, AfterMethodSpace(p, m, space))
  {
    hide Run, Step, Emit, MethodString, MethodWalk;
    var w := MethodString(m);
    WalkIsWhole(m, w);
    forall i | 0 <= i < |w| ensures w[i] != ' ' && w[i] != CR && w[i] != LF {
      MethodChars(m, i);
    }
    MethodReads(cfg, p, w);
    var q := AfterMethod(p, w);
    StepOfMethod(cfg, Counted(q), ' ');
    ReadsByte(cfg, p, w, q, ' ');
    var o := AfterMethodSpace(p, m, " ");
    SpacesRead(cfg, o, space[1..]);
    ReadsThen(cfg, p, w + " ", o, space[1..], AfterMethodSpace(p, m, space));
    assert w + " " + space[1..] == w + space;
  }

  lemma StepOfUrl(cfg: Settings, p: Parser, ch: char)
    requires p.f.state == ReqSpacesBeforeUrl || InUrl(p.f.state)
    ensures Step(cfg, p, ch) == StepUrl(p.f, ch)
  {
  }

  /** A character that the URL automaton takes is no space and no line end. */
  lemma UrlCharVisible(s: State, ch: char)
    requires UrlChar(s, ch) != Dead
    ensures ch != ' ' && ch != CR && ch != LF
  {
  }

  /** Every state on the way to a live one is live. */
  lemma UrlWalkLives(m: Method, url: string)
    requires url != "" && UrlWalk(m, url) != Dead
    ensures UrlWalk(m, url[..|url| - 1]) != Dead && InUrl(UrlWalk(m, url))
  {
    hide UrlChar;
    var s := UrlWalk(m, url[..|url| - 1]);
    UrlCharStays(s, url[|url| - 1]);
    if s == Dead {
      DeadStays(url[|url| - 1]);
    }
  }

  lemma DeadStays(ch: char)
    ensures UrlChar(Dead, ch) == Dead
  {
  }

  function AfterUrl(p: Parser, url: string): Parser
    requires url != ""
  {
    Parser(p.f.(state := UrlWalk(p.f.meth, url), nread := p.f.nread + |url|), Emit(p.trace, Data(Url, url)))
  }

  lemma {:induction false} UrlReads(cfg: Settings, p: Parser, url: string)
    requires p.f.state == ReqSpacesBeforeUrl && Room(cfg, p, |url|)
    requires url != "" && UrlWalk(p.f.meth, url) != Dead
    ensures Reads(cfg, p, url, AfterUrl(p, url))
  {
    var n := |url| - 1;
    var v, ch := url[..n], url[n];
    hide Run, Step, Emit, UrlChar, UrlWalk, AfterUrl, Reads;
    UrlWalkLives(p.f.meth, url);
    assert url == v + [ch];
    if n == 0 {
      UrlFirst(cfg, p, ch);
      assert url == [ch];
    } else {
      assert v != "" && |v| < |url|;
      UrlReads(cfg, p, v);
      UrlNext(cfg, p, v, ch);
    }
  }

  lemma UrlFirst(cfg: Settings, p: Parser, ch: char)
    requires p.f.state == ReqSpacesBeforeUrl && Room(cfg, p, 1) && UrlWalk(p.f.meth, [ch]) != Dead
    ensures Reads(cfg, p, [ch], AfterUrl(p, [ch]))
  {
    hide Run, Step, Emit, UrlChar;
    assert [ch][..0] == "" && "" + [ch] == [ch];
    UrlCharVisible(UrlWalk(p.f.meth, ""), ch);
    ReadsNothing(cfg, p);
    StepOfUrl(cfg, Counted(p), ch);
    ReadsByte(cfg, p, "", p, ch);
  }

  lemma UrlNext(cfg: Settings, p: Parser, v: string, ch: char)
    requires v != "" && UrlWalk(p.f.meth, v) != Dead && UrlWalk(p.f.meth, v + [ch]) != Dead && Room(cfg, p, |v| + 1)
    requires Reads(cfg, p, v, AfterUrl(p, v))
    ensures Reads(cfg, p, v + [ch], AfterUrl(p, v + [ch]))
  {
    hide Run, Step, Emit, UrlChar;
    assert (v + [ch])[..|v|] == v;
    assert UrlWalk(p.f.meth, v + [ch]) == UrlChar(UrlWalk(p.f.meth, v), ch);
    UrlWalkLives(p.f.meth, v);
    hide UrlWalk;
    UrlCharVisible(UrlWalk(p.f.meth, v), ch);
    var q := AfterUrl(p, v);
    StepOfUrl(cfg, Counted(q), ch);
    ReadsByte(cfg, p, v, q, ch);
    EmitTwice(p.trace, Url, v, [ch]);
  }

  lemma StepOfVersion(cfg: Settings, p: Parser, ch: char)
    requires InVersion(p.f.state)
    ensures Step(cfg, p, ch) == StepRequestVersion(p.f, ch)
  {
  }

  /** A byte of the version, at a state and with fields that are all known. */
  lemma VersionByte(cfg: Settings, p: Parser, a: string, q: Parser, ch: char, f: Fields)
    requires Reads(cfg, p, a, q) && InVersion(q.f.state) && Room(cfg, q, 1)
    requires StepRequestVersion(q.f, ch) == Break(f.(nread := q.f.nread), None) && f.nread == q.f.nread + 1
    ensures Reads(cfg, p, a + [ch], Parser(f, q.trace))
  {
    hide Run, Step;
    StepOfVersion(cfg, Counted(q), ch);
    Silent(cfg, p, a, q, ch, f);
  }

  lemma ProtocolReads(cfg: Settings, p: Parser)
    requires p.f.state == ReqHttpStart && Room(cfg, p, 5)
    ensures Reads(cfg, p, "HTTP/", Parser(p.f.(state := ReqHttpMajor, nread := p.f.nread + 5), p.trace))
  {
    hide Run, Step, Reads;
    ReadsNothing(cfg, p);
    var f1 := p.f.(state := ReqHttpH, nread := p.f.nread + 1);
    VersionByte(cfg, p, "", p, 'H', f1);
    assert "" + ['H'] == "H";
    var f2 := p.f.(state := ReqHttpHT, nread := p.f.nread + 2);
    VersionByte(cfg, p, "H", Parser(f1, p.trace), 'T', f2);
    assert "H" + ['T'] == "HT";
    var f3 := p.f.(state := ReqHttpHTT, nread := p.f.nread + 3);
    VersionByte(cfg, p, "HT", Parser(f2, p.trace), 'T', f3);
    assert "HT" + ['T'] == "HTT";
    var f4 := p.f.(state := ReqHttpHTTP, nread := p.f.nread + 4);
    VersionByte(cfg, p, "HTT", Parser(f3, p.trace), 'P', f4);
    assert "HTT" + ['P'] == "HTTP";
    var f5 := p.f.(state := ReqHttpMajor, nread := p.f.nread + 5);
    VersionByte(cfg, p, "HTTP", Parser(f4, p.trace), '/', f5);
    assert "HTTP" + ['/'] == "HTTP/";
  }

  lemma IceReads(cfg: Settings, p: Parser)
    requires p.f.state == ReqHttpStart && p.f.meth == Source && Room(cfg, p, 4)
    ensures Reads(cfg, p, "ICE/", Parser(p.f.(state := ReqHttpMajor, nread := p.f.nread + 4), p.trace))
  {
    hide Run, Step, Reads;
    ReadsNothing(cfg, p);
    var f1 := p.f.(state := ReqHttpI, nread := p.f.nread + 1);
    VersionByte(cfg, p, "", p, 'I', f1);
    assert "" + ['I'] == "I";
    var f2 := p.f.(state := ReqHttpIC, nread := p.f.nread + 2);
    VersionByte(cfg, p, "I", Parser(f1, p.trace), 'C', f2);
    assert "I" + ['C'] == "IC";
    var f3 := p.f.(state := ReqHttpHTTP, nread := p.f.nread + 3);
    VersionByte(cfg, p, "IC", Parser(f2, p.trace), 'E', f3);
    assert "IC" + ['E'] == "ICE";
    var f4 := p.f.(state := ReqHttpMajor, nread := p.f.nread + 4);
    VersionByte(cfg, p, "ICE", Parser(f3, p.trace), '/', f4);
    assert "ICE" + ['/'] == "ICE/";
  }

  lemma NumbersRead(cfg: Settings, p: Parser, major: char, minor: char)
    requires p.f.state == ReqHttpMajor && IsNum(major) && IsNum(minor) && Room(cfg, p, 3)
    ensures Reads(cfg, p, [major, '.', minor],
                  Parser(p.f.(state := ReqHttpEnd, httpMajor := Digit(major), httpMinor := Digit(minor),
                              nread := p.f.nread + 3), p.trace))
  {
    hide Run, Step, Reads;
    ReadsNothing(cfg, p);
    var f1 := p.f.(state := ReqHttpDot, nread := p.f.nread + 1, httpMajor := Digit(major));
    VersionByte(cfg, p, "", p, major, f1);
    assert "" + [major] == [major];
    var f2 := f1.(state := ReqHttpMinor, nread := p.f.nread + 2);
    VersionByte(cfg, p, [major], Parser(f1, p.trace), '.', f2);
    assert [major] + ['.'] == [major, '.'];
    var f3 := f2.(state := ReqHttpEnd, nread := p.f.nread + 3, httpMinor := Digit(minor));
    VersionByte(cfg, p, [major, '.'], Parser(f2, p.trace), minor, f3);
    assert [major, '.'] + [minor] == [major, '.', minor];
  }

  /** The end of the request line behind its version. */
  lemma VersionLineEnds(cfg: Settings, p: Parser, eol: string)
    requires p.f.state == ReqHttpEnd && IsEol(eol) && Room(cfg, p, |eol|)
    ensures Reads(cfg, p, eol, Parser(p.f.(state := HeaderFieldStart, nread := p.f.nread + |eol|), p.trace))
  {
    hide Run, Step, Reads;
    ReadsNothing(cfg, p);
    if eol == CRLF {
      var f1 := p.f.(state := ReqLineAlmostDone, nread := p.f.nread + 1);
      VersionByte(cfg, p, "", p, CR, f1);
      VersionByte(cfg, p, "" + [CR], Parser(f1, p.trace), LF, p.f.(state := HeaderFieldStart, nread := p.f.nread + 2));
      assert eol == "" + [CR] + [LF];
    } else {
      VersionByte(cfg, p, "", p, LF, p.f.(state := HeaderFieldStart, nread := p.f.nread + 1));
      assert eol == "" + [LF];
    }
  }

  /** A request line may end with its URL. */
  lemma SimpleLineEnds(cfg: Settings, p: Parser, eol: string)
    requires UrlEndableState(p.f.state) && IsEol(eol) && Room(cfg, p, |eol|)
    ensures Reads(cfg, p, eol,
                  Parser(p.f.(state := HeaderFieldStart, httpMajor := 0, httpMinor := 9, nread := p.f.nread + |eol|),
                         p.trace))
  {
    hide Run, Step, Reads;
    ReadsNothing(cfg, p);
    var end := p.f.(httpMajor := 0, httpMinor := 9, state := HeaderFieldStart, nread := p.f.nread + |eol|);
    if eol == CRLF {
      StepOfUrl(cfg, Counted(p), CR);
      var f1 := end.(state := ReqLineAlmostDone, nread := p.f.nread + 1);
      Silent(cfg, p, "", p, CR, f1);
      VersionByte(cfg, p, "" + [CR], Parser(f1, p.trace), LF, end);
      assert eol == "" + [CR] + [LF];
    } else {
      StepOfUrl(cfg, Counted(p), LF);
      Silent(cfg, p, "", p, LF, end);
      assert eol == "" + [LF];
    }
  }

  lemma UrlSpaceReads(cfg: Settings, p: Parser, space: string)
    requires UrlEndableState(p.f.state) && IsSpace(space) && Room(cfg, p, |space|)
    ensures Reads(cfg, p, space, Parser(p.f.(state := ReqHttpStart, nread := p.f.nread + |space|), p.trace))
  {
    hide Run, Step, Reads;
    ReadsNothing(cfg, p);
    StepOfUrl(cfg, Counted(p), ' ');
    var o := Parser(p.f.(state := ReqHttpStart, nread := p.f.nread + 1), p.trace);
    Silent(cfg, p, "", p, ' ', o.f);
    SpacesRead(cfg, o, space[1..]);
    ReadsThen(cfg, p, "" + [' '], o, space[1..], Parser(o.f.(nread := p.f.nread + |space|), p.trace));
    assert "" + [' '] + space[1..] == space;
  }

  /** What follows the URL in a request line. */
  lemma VersionReads(cfg: Settings, p: Parser, v: Version, eol: string)
    requires UrlEndableState(p.f.state) && IsVersion(p.f.meth, v) && IsEol(eol) && Room(cfg, p, |VersionText(v) + eol|)
    ensures Reads(cfg, p, VersionText(v) + eol,
                  Parser(p.f.(state := HeaderFieldStart, httpMajor := Major(v), httpMinor := Minor(v),
                              nread := p.f.nread + |VersionText(v) + eol|), p.trace))
  {
    hide Reads, IsEol;
    if v.Simple? {
      SimpleLineEnds(cfg, p, eol);
      assert VersionText(v) + eol == eol;
    } else {
      var name := if v.Http? then "HTTP/" else "ICE/";
      UrlSpaceReads(cfg, p, v.space);
      var a := Parser(p.f.(state := ReqHttpStart, nread := p.f.nread + |v.space|), p.trace);
      if v.Http? {
        ProtocolReads(cfg, a);
      } else {
        IceReads(cfg, a);
      }
      var b := Parser(a.f.(state := ReqHttpMajor, nread := a.f.nread + |name|), p.trace);
      ReadsThen(cfg, p, v.space, a, name, b);
      NumbersRead(cfg, b, v.major, v.minor);
      var c := Parser(b.f.(state := ReqHttpEnd, httpMajor := Digit(v.major), httpMinor := Digit(v.minor),
                           nread := b.f.nread + 3), p.trace);
      ReadsThen(cfg, p, v.space + name, b, [v.major, '.', v.minor], c);
      VersionLineEnds(cfg, c, eol);
      ReadsThen(cfg, p, v.space + name + [v.major, '.', v.minor], c, eol,
                Parser(c.f.(state := HeaderFieldStart, nread := c.f.nread + |eol|), p.trace));
    }
  }

  /** The parser after a request line. */
  function AfterRequestLine(p: Parser, r: HttpRequest): Parser {
    Parser(p.f.(flags := {}, contentLength := NO_LENGTH, meth := r.meth, index := |MethodString(r.meth)| + 1,
                state := HeaderFieldStart, httpMajor := Major(r.version), httpMinor := Minor(r.version),
                nread := p.f.nread + |RequestLine(r)|),
           p.trace + [MessageBegin, Data(Url, r.url)])
  }

  lemma RequestLineReads(cfg: Settings, p: Parser, r: HttpRequest)
    requires p.f.state == StartReq && Room(cfg, p, |RequestLine(r)|) && IsLine(r)
    ensures Reads(cfg, p, RequestLine(r), AfterRequestLine(p, r))
  {
    hide Run, Step, MethodString, UrlWalk, VersionText, IsEol, IsVersion, Reads, IsLead, Major, Minor;
    LeadReads(cfg, p, r.lead);
    var o := p.(f := p.f.(nread := p.f.nread + |r.lead|));
    MethodSpaceReads(cfg, o, r.meth, r.space);
    var a := AfterMethodSpace(o, r.meth, r.space);
    ReadsThen(cfg, p, r.lead, o, MethodString(r.meth) + r.space, a);
    UrlReads(cfg, a, r.url);
    var b := AfterUrl(a, r.url);
    ReadsThen(cfg, p, r.lead + (MethodString(r.meth) + r.space), a, r.url, b);
    VersionReads(cfg, b, r.version, r.eol);
    var c := Parser(b.f.(state := HeaderFieldStart, httpMajor := Major(r.version), httpMinor := Minor(r.version),
                         nread := b.f.nread + |VersionText(r.version) + r.eol|), b.trace);
    ReadsThen(cfg, p, r.lead + (MethodString(r.meth) + r.space) + r.url, b, VersionText(r.version) + r.eol, c);
    assert b.trace == p.trace + [MessageBegin, Data(Url, r.url)];
  }

  // ---------------------------------------------------------------- whole requests

  predicate IsRequest(r: HttpRequest) { IsLine(r) && IsBlock(r.headers, r.content) }

  function HeadText(r: HttpRequest): string { RequestLine(r) + BlockText(r.headers, r.content, r.eol) }

  /** The connection stays open behind this request. */
  predicate Keeps(r: HttpRequest) { KeepsOpen(Major(r.version), Minor(r.version), r.headers) }

  /** What follows this request is another protocol. */
  predicate Upgrades(r: HttpRequest) { IsUpgrade(Request, 0, r.meth, r.headers) }

  /** Its body is left to that protocol. */
  predicate StopsAtHead(r: HttpRequest) { Upgrades(r) && (r.meth == Connect || IsEmpty(r.content)) }

  /** What the parser's public fields say at the end of the headers; a request leaves the status
      as it was. */
  function HeadOf(r: HttpRequest, status: nat): HeadView {
    HeadView(Request, BlockFlags(r.headers, r.content), FramingLength(r.content), Major(r.version), Minor(r.version),
             status, r.meth, Upgrades(r))
  }

  function HeadEvents(r: HttpRequest, status: nat): seq<Event> {
    [MessageBegin, Data(Url, r.url)] + BlockEvents(r.headers, r.content) + [HeadersComplete(HeadOf(r, status))]
  }

  /** The parser before the empty line of a request. */
  function RequestLines(p: Parser, r: HttpRequest): Parser
    requires AreHeaders(r.headers)
  {
    AfterBlock(AfterRequestLine(p, r), r.headers, r.content, r.eol)
  }

  /** What the client answers to this request. */
  function Answer(cfg: Settings, p: Parser, r: HttpRequest): Reply
    requires AreHeaders(r.headers)
  {
    ReplyTo(cfg, RequestLines(p, r))
  }

  /** The parser once the headers of a request are complete. */
  function RequestHead(p: Parser, r: HttpRequest, reply: Reply): Parser
    requires AreHeaders(r.headers)
  {
    HeadDone(RequestLines(p, r), reply)
  }

  lemma RequestLineTells(p: Parser, r: HttpRequest)
    ensures BeforeHeaders(AfterRequestLine(p, r))
    ensures AfterRequestLine(p, r).f.nread == p.f.nread + |RequestLine(r)|
  {
    hide MethodString, RequestLine, Major, Minor;
  }

  /** The client is asked with the method, the version and what the headers ask for and announce. */
  lemma RequestLinesTell(p: Parser, r: HttpRequest)
    requires p.f.kind == Request && AreHeaders(r.headers)
    ensures var q := RequestLines(p, r);
            && CallbackView(q.f) == HeadOf(r, p.f.statusCode) && UpgradeOf(q.f) == Upgrades(r)
            && q.trace == p.trace + [MessageBegin, Data(Url, r.url)] + BlockEvents(r.headers, r.content)
            && q.f.flags == BlockFlags(r.headers, r.content) && q.f.contentLength == FramingLength(r.content)
            && q.f.kind == Request && q.f.meth == r.meth && q.f.statusCode == p.f.statusCode
            && q.f.ShouldKeepAlive() == Keeps(r)
  {
    hide MethodString, RequestLine, LinesText, BlockEvents, BlockFlags, BeforeHeaders, AreHeaders, Asks, Offers, Major,
      Minor;
    RequestLineTells(p, r);
    BlockTells(AfterRequestLine(p, r), r.headers, r.content, r.eol);
    HeadDecides(RequestLines(p, r), r.headers, r.content);
  }

  /** The head of a request leaves what the client is told, and has made just its callbacks. */
  lemma RequestHeadTells(p: Parser, r: HttpRequest)
    requires p.f.kind == Request && AreHeaders(r.headers)
    ensures var q := RequestHead(p, r, GoOn);
            && q.f.View() == HeadOf(r, p.f.statusCode) && q.trace == p.trace + HeadEvents(r, p.f.statusCode)
            && q.f.upgrade == Upgrades(r) && Announces(q, r.content) && q.f.ShouldKeepAlive() == Keeps(r)
            && q.f.kind == Request && q.f.meth == r.meth && q.f.statusCode == p.f.statusCode
  {
    hide RequestLines, BlockEvents, BlockFlags, AreHeaders, Asks, Offers, Major, Minor, Upgrades, Keeps;
    RequestLinesTell(p, r);
    BlockOfHead(r.headers, r.content);
    var q := RequestHead(p, r, GoOn);
    assert q.trace == p.trace + HeadEvents(r, p.f.statusCode);
    assert q.trace[|q.trace| - 1] == HeadersComplete(HeadOf(r, p.f.statusCode));
  }

  /** The head of a request is read, if there is room for it. */
  lemma RequestHeadReads(cfg: Settings, p: Parser, r: HttpRequest)
    requires p.f.state == StartReq && IsRequest(r) && Room(cfg, p, |HeadText(r)|)
    ensures Run(cfg, p, HeadText(r)) == HeadEnds(RequestHead(p, r, Answer(cfg, p, r)), |HeadText(r)|)
  {
    hide Run, IsLine, AreHeaders, IsFraming, BeforeHeaders, AfterRequestLine, AfterBlock, BlockText, RequestLine,
      HeadEnds, HeadDone, ReplyTo;
    LineOf(r);
    RequestLineReads(cfg, p, r);
    RequestLineTells(p, r);
    HeadReads(cfg, p, RequestLine(r), AfterRequestLine(p, r), r.headers, r.content, r.eol);
  }

  lemma LineOf(r: HttpRequest)
    requires IsLine(r)
    ensures IsEol(r.eol)
  {
  }

  /** If there is no room for it, it is refused at the first byte too many. */
  lemma RequestHeadOverflows(cfg: Settings, p: Parser, r: HttpRequest)
    requires p.f.state == StartReq && IsRequest(r)
    requires p.f.nread <= cfg.limit < p.f.nread + |HeadText(r)|
    ensures Run(cfg, p, HeadText(r)) == Failed(HeaderOverflow, cfg.limit - p.f.nread)
  {
    hide Run, IsLine, IsBlock, BeforeHeaders, AfterRequestLine, AfterBlock, BlockText, RequestLine;
    var limit := p.f.nread + |HeadText(r)|;
    LineOf(r);
    RequestLineReads(cfg.(limit := limit), p, r);
    RequestLineTells(p, r);
    HeadOverflows(cfg, limit, p, RequestLine(r), AfterRequestLine(p, r), r.headers, r.content, r.eol);
  }

  /** If the client answers that there is no body, the message is complete at the end of its head,
      whatever it announces; with an upgrade, its own or the client's, the parser leaves there. */
  lemma SkippedRequest(cfg: Settings, p: Parser, r: HttpRequest) returns (q: Parser)
    requires p.f.state == StartReq && p.f.kind == Request && IsRequest(r) && Room(cfg, p, |HeadText(r)|)
    requires cfg.onHeadersComplete(HeadOf(r, p.f.statusCode),
                                   p.trace + [MessageBegin, Data(Url, r.url)]
                                       + BlockEvents(r.headers, r.content)) != GoOn
    ensures var reply := cfg.onHeadersComplete(HeadOf(r, p.f.statusCode),
                                               p.trace + [MessageBegin, Data(Url, r.url)]
                                               + BlockEvents(r.headers, r.content));
            Run(cfg, p, HeadText(r)) ==
            if Upgrades(r) || reply == NoBodyUpgrade then Exited(q, |HeadText(r)|) else Running(q)
    ensures q.trace == p.trace + HeadEvents(r, p.f.statusCode) + [MessageComplete(Keeps(r))]
    ensures q.f.state == if Keeps(r) then StartReq else Dead
  {
    hide Run, IsLine, AreHeaders, IsFraming, RequestLines, BlockEvents, HeadText, BlockFlags, Upgrades, Keeps, Major,
      Minor;
    RequestHeadReads(cfg, p, r);
    RequestLinesTell(p, r);
    BlockOfHead(r.headers, r.content);
    var h := RequestHead(p, r, Answer(cfg, p, r));
    q := MessageOver(h);
    assert h.trace == p.trace + HeadEvents(r, p.f.statusCode);
  }

  function RequestText(r: HttpRequest): string {
    if StopsAtHead(r) then HeadText(r) else HeadText(r) + ContentText(r.content)
  }

  function RequestEvents(r: HttpRequest, status: nat): seq<Event> {
    HeadEvents(r, status) + (if StopsAtHead(r) then [] else ContentEvents(r.content)) + [MessageComplete(Keeps(r))]
  }

  /** Where a server's parser waits for a request. Bytes may be counted already. */
  predicate Waits(cfg: Settings, p: Parser) {
    p.f.state == StartReq && p.f.kind == Request && Reachable(cfg, p)
  }

  /** The parser after a whole request. */
  function RequestOver(p: Parser, r: HttpRequest): Parser
    requires AreHeaders(r.headers)
  {
    BehindMessage(RequestHead(p, r, GoOn), r.content)
  }

  /** A whole request is read into its parts. If it is an upgrade the parser leaves right behind it;
      otherwise it goes on, waiting for the next request exactly if the connection stays open. */
  lemma RequestReads(cfg: Settings, p: Parser, r: HttpRequest)
    requires Waits(cfg, p) && IsRequest(r) && LinesFit(cfg, r.content)
    requires AlwaysGoesOn(cfg) && Room(cfg, p, |HeadText(r)|)
    ensures var q := RequestOver(p, r);
            && Run(cfg, p, RequestText(r)) == (if Upgrades(r) then Exited(q, |RequestText(r)|) else Running(q))
            && q.trace == p.trace + RequestEvents(r, p.f.statusCode)
            && q.f.state == (if Keeps(r) then StartReq else Dead) && q.f.kind == Request && Reachable(cfg, q)
            && q.f.nread == (if StopsAtHead(r) then 0 else CountLeft(r.content)) && q.f.statusCode == p.f.statusCode
  {
    hide Run, Reachable, HeadText, RequestText, HeadEvents, AreHeaders, IsLine, IsFraming, LinesFit, RequestHead,
      BehindMessage, Announces, HeadEnds, ContentText, Upgrades, StopsAtHead, Keeps, HeadOf, EndsHere, MessageText,
      Answer;
    RequestHeadReads(cfg, p, r);
    GoesOn(cfg, p, r);
    RequestHeadTells(p, r);
    var h := RequestHead(p, r, GoOn);
    StopsWhere(p, r);
    MessageReads(cfg, p, HeadText(r), h, r.content);
    MessageTells(h, r.content);
    RequestNeedsNoEnd(h.f);
  }

  lemma GoesOn(cfg: Settings, p: Parser, r: HttpRequest)
    requires AlwaysGoesOn(cfg) && AreHeaders(r.headers)
    ensures Answer(cfg, p, r) == GoOn
  {
    hide RequestLines, AreHeaders;
  }

  lemma RequestNeedsNoEnd(f: Fields)
    requires f.kind == Request
    ensures !f.MessageNeedsEof() && f.NewMessage() == if f.ShouldKeepAlive() then StartReq else Dead
  {
  }

  lemma StopsWhere(p: Parser, r: HttpRequest)
    requires p.f.kind == Request && IsRequest(r)
    ensures var h := RequestHead(p, r, GoOn);
            && (EndsHere(h.f) <==> StopsAtHead(r)) && MessageText(HeadText(r), h, r.content) == RequestText(r)
            && IsFraming(r.content)
  {
    hide HeadText, HeadEvents, AreHeaders, IsLine, IsFraming, RequestHead, Announces, ContentText, Upgrades, Keeps,
      HeadOf, EndsHere;
    RequestHeadTells(p, r);
    EndsHereWhen(RequestHead(p, r, GoOn), r.content);
  }

  // ---------------------------------------------------------------- any number of requests

  function PipelineText(rs: seq<HttpRequest>): string {
    if rs == [] then "" else PipelineText(rs[..|rs| - 1]) + RequestText(rs[|rs| - 1])
  }

  function PipelineEvents(rs: seq<HttpRequest>, status: nat): seq<Event> {
    if rs == [] then [] else PipelineEvents(rs[..|rs| - 1], status) + RequestEvents(rs[|rs| - 1], status)
  }

  /** Requests, none of which is an upgrade, whatever the length of their heads. */
  predicate AreRequests(cfg: Settings, rs: seq<HttpRequest>) {
    forall i :: 0 <= i < |rs| ==> IsRequest(rs[i]) && !Upgrades(rs[i]) && LinesFit(cfg, rs[i].content)
  }

  /** The bytes counted before the i-th request: those the parser had counted, then those the
      body in front of it leaves. */
  function CountBefore(nread: nat, rs: seq<HttpRequest>, i: nat): nat
    requires i <= |rs|
  {
    if i == 0 then nread else CountLeft(rs[i - 1].content)
  }

  predicate HeadFits(cfg: Settings, nread: nat, rs: seq<HttpRequest>, i: nat)
    requires i < |rs|
  {
    CountBefore(nread, rs, i) + |HeadText(rs[i])| <= cfg.limit
  }

  predicate StillOpen(rs: seq<HttpRequest>, i: nat)
    requires i <= |rs|
  {
    i == 0 || Keeps(rs[i - 1])
  }

  /** The i-th request is taken, if those in front of it are: the one in front leaves the connection
      open, and the head has room. */
  predicate Taken(cfg: Settings, nread: nat, rs: seq<HttpRequest>, i: nat)
    requires i < |rs|
  {
    StillOpen(rs, i) && HeadFits(cfg, nread, rs, i)
  }

  predicate AllTaken(cfg: Settings, nread: nat, rs: seq<HttpRequest>) {
    forall i :: 0 <= i < |rs| ==> Taken(cfg, nread, rs, i)
  }

  lemma {:induction false} PipelineReads(cfg: Settings, p: Parser, rs: seq<HttpRequest>) returns (q: Parser)
    requires Waits(cfg, p) && AlwaysGoesOn(cfg) && AreRequests(cfg, rs) && AllTaken(cfg, p.f.nread, rs)
    ensures Reads(cfg, p, PipelineText(rs), q) && q.trace == p.trace + PipelineEvents(rs, p.f.statusCode)
    ensures q.f.state == (if StillOpen(rs, |rs|) then StartReq else Dead) && q.f.kind == Request && Reachable(cfg, q)
    ensures q.f.nread == CountBefore(p.f.nread, rs, |rs|) && q.f.statusCode == p.f.statusCode
  {
    hide Run, AlwaysGoesOn, Reachable, IsRequest, LinesFit, HeadText, RequestText, RequestEvents, RequestOver, Keeps,
      Upgrades, Taken;
    if rs == [] {
      q := p;
      ReadsNothing(cfg, p);
    } else {
      var n := |rs| - 1;
      FrontTaken(cfg, p.f.nread, rs, n);
      var o := PipelineReads(cfg, p, rs[..n]);
      LastTaken(cfg, p.f.nread, rs);
      NoStop(rs[n]);
      q := RequestOver(o, rs[n]);
      RequestReads(cfg, o, rs[n]);
      ReadsThen(cfg, p, PipelineText(rs[..n]), o, RequestText(rs[n]), q);
      assert q.trace == p.trace + PipelineEvents(rs, p.f.statusCode);
    }
  }

  lemma NoStop(r: HttpRequest)
    ensures !Upgrades(r) ==> !StopsAtHead(r)
    ensures IsRequest(r) ==> AreHeaders(r.headers)
  {
  }

  lemma LastTaken(cfg: Settings, nread: nat, rs: seq<HttpRequest>)
    requires rs != [] && AllTaken(cfg, nread, rs)
    ensures var n := |rs| - 1;
            StillOpen(rs, n) && HeadFits(cfg, nread, rs, n)
  {
    assert Taken(cfg, nread, rs, |rs| - 1);
  }

  lemma FrontTaken(cfg: Settings, nread: nat, rs: seq<HttpRequest>, n: nat)
    requires n <= |rs| && forall i :: 0 <= i < n ==> Taken(cfg, nread, rs, i)
    ensures AllTaken(cfg, nread, rs[..n]) && CountBefore(nread, rs[..n], n) == CountBefore(nread, rs, n)
    ensures StillOpen(rs[..n], n) == StillOpen(rs, n)
  {
    hide HeadText, Keeps;
    forall i | 0 <= i < n ensures Taken(cfg, nread, rs[..n], i) {
      assert Taken(cfg, nread, rs, i);
    }
  }

  /** The index of the first request that is not taken; their number, if all are. */
  function FirstRefused(cfg: Settings, nread: nat, rs: seq<HttpRequest>): nat {
    FirstFalse(seq(|rs|, i requires 0 <= i < |rs| => Taken(cfg, nread, rs, i)))
  }

  lemma FirstRefusedIs(cfg: Settings, nread: nat, rs: seq<HttpRequest>)
    ensures var k := FirstRefused(cfg, nread, rs);
            && k <= |rs| && (forall j :: 0 <= j < k ==> Taken(cfg, nread, rs, j))
            && (k < |rs| ==> !Taken(cfg, nread, rs, k)) && (k == |rs| <==> AllTaken(cfg, nread, rs))
  {
    hide Taken;
    var bs := seq(|rs|, i requires 0 <= i < |rs| => Taken(cfg, nread, rs, i));
    assert forall j :: 0 <= j < |rs| ==> bs[j] == Taken(cfg, nread, rs, j);
  }

  /** How a list of requests is refused at the i-th one: behind a request that closes the connection,
      at its first letter; otherwise, and if not even that counts as in the limit, at the first byte
      too many. */
  function RefusedAt(cfg: Settings, nread: nat, rs: seq<HttpRequest>, i: nat): Result
    requires i < |rs|
  {
    var start, count := |PipelineText(rs[..i])|, CountBefore(nread, rs, i);
    if !StillOpen(rs, i) && count + |rs[i].lead| < cfg.limit then Failed(ClosedConnection, start + |rs[i].lead|)
    else if count <= cfg.limit then Failed(HeaderOverflow, start + (cfg.limit - count))
    else Failed(HeaderOverflow, start)
  }

  lemma {:induction false} PipelinePrefix(rs: seq<HttpRequest>, i: nat)
    requires i < |rs|
    ensures PipelineText(rs[..i]) + RequestText(rs[i]) <= PipelineText(rs)
    decreases |rs|
  {
    hide RequestText;
    var n := |rs| - 1;
    if i < n {
      PipelinePrefix(rs[..n], i);
      assert rs[..n][..i] == rs[..i];
    }
  }

  lemma HeadIsPrefix(r: HttpRequest)
    ensures HeadText(r) <= RequestText(r)
  {
    hide HeadText, ContentText, StopsAtHead;
  }

  /** Requests up to one that is not taken. */
  lemma PipelineRefused(cfg: Settings, p: Parser, rs: seq<HttpRequest>, i: nat)
    requires Waits(cfg, p) && AlwaysGoesOn(cfg) && AreRequests(cfg, rs)
    requires i < |rs| && !Taken(cfg, p.f.nread, rs, i) && forall j :: 0 <= j < i ==> Taken(cfg, p.f.nread, rs, j)
    ensures Run(cfg, p, PipelineText(rs)) == RefusedAt(cfg, p.f.nread, rs, i)
  {
    hide Run, AlwaysGoesOn, IsRequest, LinesFit, HeadText, RequestText, PipelineText, PipelineEvents, Reachable, Keeps,
      Upgrades;
    FrontTaken(cfg, p.f.nread, rs, i);
    assert AreRequests(cfg, rs[..i]);
    var q := PipelineReads(cfg, p, rs[..i]);
    var a, b := PipelineText(rs[..i]), HeadText(rs[i]);
    ReachableRoom(cfg, q);
    if StillOpen(rs, i) {
      RequestHeadOverflows(cfg, q, rs[i]);
    } else {
      DeadRefuses(cfg, q, rs[i]);
    }
    RunThen(cfg, p, a, q, b);
    PipelinePrefix(rs, i);
    HeadIsPrefix(rs[i]);
    assert PipelineText(rs)[..|a + b|] == a + b;
    RunStays(cfg, p, PipelineText(rs), |a + b|);
  }

  lemma ReachableRoom(cfg: Settings, p: Parser)
    requires Reachable(cfg, p)
    ensures p.f.nread <= cfg.limit
  {
  }

  /** On a closed connection the next request is refused at its first letter, if the limit leaves
      room for that. */
  lemma DeadRefuses(cfg: Settings, p: Parser, r: HttpRequest)
    requires p.f.state == Dead && IsRequest(r) && p.f.nread <= cfg.limit
    ensures Run(cfg, p, HeadText(r)) ==
            if p.f.nread + |r.lead| < cfg.limit then Failed(ClosedConnection, |r.lead|)
            else Failed(HeaderOverflow, cfg.limit - p.f.nread)
  {
    hide Run, Exec, Step, BlockText, VersionText, IsEol, IsUrl, IsVersion, AreHeaders, IsFraming, MethodString;
    var w := MethodString(r.meth);
    MethodStarts(r.meth);
    var text := HeadText(r);
    assert text[..|r.lead|] == r.lead && text[|r.lead|] == w[0];
    if p.f.nread + |r.lead| <= cfg.limit {
      DeadSkips(cfg, p, r.lead);
      var q := p.(f := p.f.(nread := p.f.nread + |r.lead|));
      assert text[..|r.lead| + 1] == r.lead + [w[0]];
      DeadByte(cfg, p, r.lead, q, w[0]);
      RunStays(cfg, p, text, |r.lead| + 1);
    } else {
      var n := cfg.limit - p.f.nread;
      DeadSkips(cfg, p, r.lead[..n]);
      var q := p.(f := p.f.(nread := cfg.limit));
      assert text[..n + 1] == r.lead[..n] + [r.lead[n]];
      DeadByte(cfg, p, r.lead[..n], q, r.lead[n]);
      RunStays(cfg, p, text, n + 1);
    }
  }

  lemma MethodStarts(m: Method)
    ensures var w := MethodString(m);
            w != "" && w[0] != CR && w[0] != LF
  {
  }

  lemma {:induction false} DeadSkips(cfg: Settings, p: Parser, lead: string)
    requires p.f.state == Dead && IsLead(lead) && Room(cfg, p, |lead|)
    ensures Reads(cfg, p, lead, p.(f := p.f.(nread := p.f.nread + |lead|)))
  {
    hide Run, Exec, Step;
    if lead == "" {
      ReadsNothing(cfg, p);
    } else {
      var n := |lead| - 1;
      DeadSkips(cfg, p, lead[..n]);
      var q := p.(f := p.f.(nread := p.f.nread + n));
      DeadByte(cfg, p, lead[..n], q, lead[n]);
      assert lead[..n] + [lead[n]] == lead;
    }
  }

  /** One more byte on a closed connection. */
  lemma DeadByte(cfg: Settings, p: Parser, a: string, q: Parser, ch: char)
    requires Reads(cfg, p, a, q) && q.f.state == Dead
    ensures Run(cfg, p, a + [ch]) ==
            if q.f.nread >= cfg.limit then Failed(HeaderOverflow, |a|)
            else if ch == CR || ch == LF then Running(q.(f := q.f.(nread := q.f.nread + 1)))
            else Failed(ClosedConnection, |a|)
  {
    assert (a + [ch])[..|a|] == a;
  }

  /** Request round trip: any list of requests, without a body or with one of known length or in
      chunked coding, printed one after the other and passed on in any buffers, is parsed without
      an error exactly if each one in front of another leaves the connection open and every head
      fits into what the body in front of it leaves of the header limit. Then the callbacks are
      exactly the parts of each request, in order. */
  lemma PipelineRoundTrip(cfg: Settings, p: Parser, rs: seq<HttpRequest>, buffers: seq<string>)
    requires Waits(cfg, p) && AlwaysGoesOn(cfg) && AreRequests(cfg, rs) && Flatten(buffers) == PipelineText(rs)
    ensures var r, i := RunAll(cfg, p, buffers), FirstRefused(cfg, p.f.nread, rs);
            if AllTaken(cfg, p.f.nread, rs) then
              && r.Running? && r.p.trace == p.trace + PipelineEvents(rs, p.f.statusCode)
              && r.p.f.state == if StillOpen(rs, |rs|) then StartReq else Dead
            else i < |rs| && r == RefusedAt(cfg, p.f.nread, rs, i)
  {
    hide Run, AreRequests, Reachable, PipelineText, PipelineEvents, AlwaysGoesOn, Taken, FirstRefused, Keeps, Upgrades;
    CutIndependence(cfg, p, buffers);
    FirstRefusedIs(cfg, p.f.nread, rs);
    if AllTaken(cfg, p.f.nread, rs) {
      var q := PipelineReads(cfg, p, rs);
    } else {
      PipelineRefused(cfg, p, rs, FirstRefused(cfg, p.f.nread, rs));
    }
  }

  /** A request that is an upgrade: in any buffers, and whatever follows, the parser leaves right
      behind it. */
  lemma UpgradeRoundTrip(cfg: Settings, p: Parser, r: HttpRequest, rest: string, buffers: seq<string>)
    returns (q: Parser)
    requires Waits(cfg, p) && AlwaysGoesOn(cfg) && IsRequest(r) && Upgrades(r) && LinesFit(cfg, r.content)
    requires Room(cfg, p, |HeadText(r)|) && Flatten(buffers) == RequestText(r) + rest
    ensures RunAll(cfg, p, buffers) == Exited(q, |RequestText(r)|)
    ensures q.trace == p.trace + RequestEvents(r, p.f.statusCode)
  {
    hide Run, AlwaysGoesOn, IsRequest, LinesFit, RequestText, RequestEvents, Reachable, Upgrades, Keeps;
    NoStop(r);
    q := RequestOver(p, r);
    RequestReads(cfg, p, r);
    assert (RequestText(r) + rest)[..|RequestText(r)|] == RequestText(r);
    RunStays(cfg, p, RequestText(r) + rest, |RequestText(r)|);
    CutIndependence(cfg, p, buffers);
  }

  // ---------------------------------------------------------------- what a chunked body leaves counted

  const POST_TEXT := "POST / HTTP/1.1\r\n" + "Transfer-Encoding: chunked\r\n" + "\r\n" + "0\r\n\r\n"

  function PostRequest(): HttpRequest {
    HttpRequest("", Post, " ", "/", Http(" ", '1', '1'), CRLF, [],
                Chunks(Header("Transfer-Encoding", " ", "chunked"), [], Chunk("0", "", "")))
  }

  lemma PostUrl()
    ensures IsUrl(Post, "/")
  {
    assert "/"[..0] == "";
    assert UrlWalk(Post, "") == ReqSpacesBeforeUrl;
  }

  lemma PostCoding()
    ensures IsCoding(Header("Transfer-Encoding", " ", "chunked")) && IsValue("chunked") && IsGap(" ")
  {
    LoweredIs("Transfer-Encoding", TRANSFER_ENCODING);
    assert "chunked"[..7] == CHUNKED && "chunked"[7..] == "";
  }

  lemma PostText()
    ensures |HeadText(PostRequest())| == 47 && RequestText(PostRequest()) == POST_TEXT
  {
    hide RequestLine, FramingText, ContentText, Asks, Offers;
    PostLine();
    PostFraming();
    PostBody();
    PostAsksNothing();
    assert HeadersText([], CRLF) == "";
    FourPieces("POST / HTTP/1.1\r\n", "Transfer-Encoding: chunked\r\n", "\r\n", "0\r\n\r\n");
  }

  lemma PostAsksNothing()
    ensures !Offers([]) && !Asks([], UPGRADING) && !Asks([], CLOSE)
  {
  }

  lemma PostLine()
    ensures RequestLine(PostRequest()) == "POST / HTTP/1.1\r\n"
  {
  }

  lemma PostFraming()
    ensures FramingText(PostRequest().content, CRLF) == "Transfer-Encoding: chunked\r\n"
  {
  }

  lemma PostBody()
    ensures ContentText(PostRequest().content) == "0\r\n\r\n"
  {
    assert ChunksText([]) == "";
  }

  lemma FourPieces(a: string, b: string, c: string, d: string)
    ensures a + ("" + b + c) + d == a + b + c + d
  {
  }

  lemma PostIsRequest(cfg: Settings)
    requires cfg.limit >= 47
    ensures AreRequests(cfg, [PostRequest(), PostRequest()]) && Keeps(PostRequest())
  {
    hide IsUrl, IsCoding, IsValue, IsGap, Asks, Offers;
    PostUrl();
    PostCoding();
    PostAsksNothing();
    assert "0"[..0] == "" && Hexadecimal("0") == 0;
  }

  /** The empty line behind the last chunk is counted to the next head: with a limit of 47 a request
      of 47 header bytes is read by a new parser, and refused behind itself two bytes before the
      end of its head. */
  lemma SameRequestRefused(cfg: Settings)
    requires cfg.limit == 47 && AlwaysGoesOn(cfg)
    ensures var p := Parser(InitialFields(Request), []);
            && Run(cfg, p, POST_TEXT).Running?
            && Run(cfg, p, POST_TEXT + POST_TEXT) == Failed(HeaderOverflow, |POST_TEXT| + 45)
  {
    hide Run, AlwaysGoesOn, HeadText, RequestText, AreRequests, PostRequest, Reachable, InitialFields, Keeps;
    var p, r := Parser(InitialFields(Request), []), PostRequest();
    InitiallyReachable(cfg, Request);
    InitialRequest();
    PostText();
    PostIsRequest(cfg);
    PostContent();
    assert PipelineText([]) == "" && [r][..0] == [] && "" + POST_TEXT == POST_TEXT;
    assert PipelineText([r]) == POST_TEXT;
    assert [r, r][..1] == [r] && PipelineText([r, r]) == POST_TEXT + POST_TEXT;
    OneRequest(cfg, r);
    var q := PipelineReads(cfg, p, [r]);
    assert Taken(cfg, 0, [r, r], 0) && !Taken(cfg, 0, [r, r], 1);
    PipelineRefused(cfg, p, [r, r], 1);
  }

  lemma InitialRequest()
    ensures InitialFields(Request).state == StartReq && InitialFields(Request).kind == Request
    ensures InitialFields(Request).nread == 0
  {
  }

  lemma PostContent()
    ensures CountLeft(PostRequest().content) == 2
  {
  }

  lemma OneRequest(cfg: Settings, r: HttpRequest)
    requires AreRequests(cfg, [r, r])
    ensures AreRequests(cfg, [r])
  {
    hide IsRequest, LinesFit, Upgrades;
    assert [r, r][0] == r;
  }

  // ---------------------------------------------------------------- parsers of both kinds

  /** A parser of both kinds takes what begins with "HT" for a response and anything else for a
      request, and then does what a parser of that kind does. */
  lemma BothKinds(cfg: Settings, p: Parser, text: string)
    requires p.f.state == StartReqOrRes && text != "" && text[0] != CR && text[0] != LF && Room(cfg, p, 2)
    requires text[0] == 'H' ==> |text| > 1 && (text[1] == 'T' || text[1] == 'E')
    ensures var response := text[0] == 'H' && text[1] == 'T';
            Run(cfg, p, text) ==
            Run(cfg, p.(f := p.f.(kind := if response then Response else Request,
                                  state := if response then StartRes else StartReq)), text)
  {
    hide Run, Step, Exec;
    if text[0] == 'H' {
      var response := text[1] == 'T';
      var q := p.(f := p.f.(kind := if response then Response else Request,
                            state := if response then StartRes else StartReq));
      TwoLetters(cfg, p, text[1]);
      assert text == ['H', text[1]] + text[2..];
      RunAppend(cfg, p, ['H', text[1]], text[2..]);
      RunAppend(cfg, q, ['H', text[1]], text[2..]);
    } else {
      var q := p.(f := p.f.(kind := Request, state := StartReq));
      OneLetter(cfg, p, text[0]);
      assert text == [text[0]] + text[1..];
      RunAppend(cfg, p, [text[0]], text[1..]);
      RunAppend(cfg, q, [text[0]], text[1..]);
    }
  }

  lemma OneLetter(cfg: Settings, p: Parser, ch: char)
    requires p.f.state == StartReqOrRes && ch != CR && ch != LF && ch != 'H' && Room(cfg, p, 1)
    ensures Run(cfg, p, [ch]) == Run(cfg, p.(f := p.f.(kind := Request, state := StartReq)), [ch])
  {
    hide Run, Step, Exec, FirstMethod;
    var q := p.(f := p.f.(kind := Request, state := StartReq));
    RunOne(cfg, p, ch);
    RunOne(cfg, q, ch);
    BothStep(cfg, Counted(p), ch);
    var c := After(Counted(p), Step(cfg, Counted(p), ch));
    ExecOnce(cfg, Counted(p), ch, 0);
    ExecOnce(cfg, c, ch, 0);
    ExecOnce(cfg, Counted(q), ch, 0);
    StartStep(cfg, c, ch);
    StartStep(cfg, Counted(q), ch);
  }

  lemma BothStep(cfg: Settings, p: Parser, ch: char)
    requires p.f.state == StartReqOrRes && ch != CR && ch != LF && ch != 'H'
    ensures Step(cfg, p, ch) ==
            Again(p.f.(flags := {}, contentLength := NO_LENGTH, kind := Request, state := StartReq), None)
  {
  }

  lemma StartStep(cfg: Settings, p: Parser, ch: char)
    requires p.f.state == StartReq && ch != CR && ch != LF
    ensures Step(cfg, p, ch) ==
            if IsAlpha(ch) && FirstMethod(ch).Some? then
              Break(p.f.(flags := {}, contentLength := NO_LENGTH, meth := FirstMethod(ch).value, index := 1,
                         state := ReqMethod), Some(MessageBegin))
            else Error(InvalidMethod)
  {
    hide FirstMethod;
  }

  lemma TwoLetters(cfg: Settings, p: Parser, ch: char)
    requires p.f.state == StartReqOrRes && (ch == 'T' || ch == 'E') && Room(cfg, p, 2)
    ensures var q := p.(f := p.f.(kind := if ch == 'T' then Response else Request,
                                  state := if ch == 'T' then StartRes else StartReq));
            Run(cfg, p, ['H', ch]) == Run(cfg, q, ['H', ch])
  {
    hide Run, Exec, Step;
    var q := p.(f := p.f.(kind := if ch == 'T' then Response else Request,
                          state := if ch == 'T' then StartRes else StartReq));
    ReadsNothing(cfg, p);
    ReadsNothing(cfg, q);
    assert "" + ['H'] == ['H'] && ['H'] + [ch] == ['H', ch];
    FirstLetterH(cfg, Counted(p), Counted(q));
    var a, b := After(Counted(p), Step(cfg, Counted(p), 'H')), After(Counted(q), Step(cfg, Counted(q), 'H'));
    ReadsByte(cfg, p, "", p, 'H');
    ReadsByte(cfg, q, "", q, 'H');
    SecondLetter(cfg, Counted(a), Counted(b), ch);
    ReadsByte(cfg, p, ['H'], a, ch);
    ReadsByte(cfg, q, ['H'], b, ch);
  }

  lemma FirstLetterH(cfg: Settings, p: Parser, q: Parser)
    requires p.f.state == StartReqOrRes && q == p.(f := p.f.(kind := q.f.kind, state := q.f.state))
    requires q.f.state == StartRes || q.f.state == StartReq
    ensures var f := p.f.(flags := {}, contentLength := NO_LENGTH);
            && Step(cfg, p, 'H') == Break(f.(state := ResOrRespH), Some(MessageBegin))
            && Step(cfg, q, 'H') ==
               Break(if q.f.state == StartRes then f.(kind := q.f.kind, state := ResH)
                     else f.(kind := q.f.kind, meth := Head, index := 1, state := ReqMethod), Some(MessageBegin))
  {
  }

  lemma SecondLetter(cfg: Settings, a: Parser, b: Parser, ch: char)
    requires a.f.state == ResOrRespH && a.trace == b.trace
    requires if ch == 'T' then b.f == a.f.(kind := Response, state := ResH)
             else ch == 'E' && b.f == a.f.(kind := Request, meth := Head, index := 1, state := ReqMethod)
    ensures Step(cfg, a, ch).Break? && Step(cfg, a, ch) == Step(cfg, b, ch)
  {
  }
}
