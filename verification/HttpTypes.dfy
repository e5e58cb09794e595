/** Vocabulary of the streaming HTTP/1.x parser: its states, its character
    classes and tables, the record of its fields and the callbacks it makes.

    A byte of input is a `char`; the bytes 0x80 to 0xFF are the characters from
    128 on, which every class below treats alike.
 */
module HttpTypes {
  import opened Options

  const CR: char := '\r'
  const LF: char := '\n'
  const FF: char := '\U{0C}'

  /** The largest 64-bit value: "no Content-Length was given". */
  const NO_LENGTH: nat := 0xFFFF_FFFF_FFFF_FFFF

  datatype ParserType = Request | Response | Both

  datatype Flag = Chunked | KeepAlive | Close | ConnectionUpgrade | Trailing | Upgrade | SkipBody | ContentLength

  /** The states, numbered in the order of a message: the parser itself relies on the
      order to tell header states from body states. */
  type State = s: int | 1 <= s <= 64 witness 1

  const Dead: State := 1
  const StartReqOrRes: State := 2
  const ResOrRespH: State := 3
  const StartRes: State := 4
  const ResH: State := 5
  const ResHT: State := 6
  const ResHTT: State := 7
  const ResHTTP: State := 8
  const ResHttpMajor: State := 9
  const ResHttpDot: State := 10
  const ResHttpMinor: State := 11
  const ResHttpEnd: State := 12
  const ResFirstStatusCode: State := 13
  const ResStatusCode: State := 14
  const ResStatusStart: State := 15
  const ResStatus: State := 16
  const ResLineAlmostDone: State := 17
  const StartReq: State := 18
  const ReqMethod: State := 19
  const ReqSpacesBeforeUrl: State := 20
  const ReqSchema: State := 21
  const ReqSchemaSlash: State := 22
  const ReqSchemaSlashSlash: State := 23
  const ReqServerStart: State := 24
  const ReqServer: State := 25
  const ReqServerWithAt: State := 26
  const ReqPath: State := 27
  const ReqQueryStringStart: State := 28
  const ReqQueryString: State := 29
  const ReqFragmentStart: State := 30
  const ReqFragment: State := 31
  const ReqHttpStart: State := 32
  const ReqHttpH: State := 33
  const ReqHttpHT: State := 34
  const ReqHttpHTT: State := 35
  const ReqHttpHTTP: State := 36
  const ReqHttpI: State := 37
  const ReqHttpIC: State := 38
  const ReqHttpMajor: State := 39
  const ReqHttpDot: State := 40
  const ReqHttpMinor: State := 41
  const ReqHttpEnd: State := 42
  const ReqLineAlmostDone: State := 43
  const HeaderFieldStart: State := 44
  const HeaderField: State := 45
  const HeaderValueDiscardWs: State := 46
  const HeaderValueDiscardWsAlmostDone: State := 47
  const HeaderValueDiscardLws: State := 48
  const HeaderValueStart: State := 49
  const HeaderValue: State := 50
  const HeaderValueLws: State := 51
  const HeaderAlmostDone: State := 52
  const ChunkSizeStart: State := 53
  const ChunkSize: State := 54
  const ChunkParameters: State := 55
  const ChunkSizeAlmostDone: State := 56
  const HeadersAlmostDone: State := 57
  const HeadersDone: State := 58
  const ChunkData: State := 59
  const ChunkDataAlmostDone: State := 60
  const ChunkDataDone: State := 61
  const BodyIdentity: State := 62
  const BodyIdentityEof: State := 63
  const MessageDone: State := 64

  /** The states whose bytes count against the header limit. */
  predicate ParsingHeader(s: State) { s <= HeadersDone }

  datatype HeaderState =
    | General | C | CO | CON
    | MatchingConnection | MatchingProxyConnection | MatchingContentLength
    | MatchingTransferEncoding | MatchingUpgrade
    | ConnectionName | ContentLengthName | ContentLengthNum | ContentLengthWs
    | TransferEncodingName | UpgradeName
    | MatchingChunked
    | TokenStart | MatchingKeepAlive | MatchingClose | MatchingConnectionUpgrade | Token
    | ChunkedValue | KeepAliveValue | CloseValue | UpgradeValue

  datatype Errno =
    | OK
    | InvalidEofState | HeaderOverflow | ClosedConnection | InvalidVersion | InvalidStatus
    | InvalidMethod | InvalidUrl | LfExpected | InvalidHeaderToken | InvalidContentLength
    | UnexpectedContentLength | InvalidChunkSize | InvalidConstant | Strict

  datatype Method =
    | Delete | Get | Head | Post | Put | Connect | Options | Trace
    | Copy | Lock | Mkcol | Move | Propfind | Proppatch | Search | Unlock
    | Bind | Rebind | Unbind | Acl
    | Report | Mkactivity | Checkout | Merge
    | Msearch | Notify | Subscribe | Unsubscribe
    | Patch | Purge | Mkcalendar | Link | Unlink | Source

  function MethodString(m: Method): string {
    match m
    case Delete => "DELETE" case Get => "GET" case Head => "HEAD" case Post => "POST"
    case Put => "PUT" case Connect => "CONNECT" case Options => "OPTIONS" case Trace => "TRACE"
    case Copy => "COPY" case Lock => "LOCK" case Mkcol => "MKCOL" case Move => "MOVE"
    case Propfind => "PROPFIND" case Proppatch => "PROPPATCH" case Search => "SEARCH"
    case Unlock => "UNLOCK" case Bind => "BIND" case Rebind => "REBIND" case Unbind => "UNBIND"
    case Acl => "ACL" case Report => "REPORT" case Mkactivity => "MKACTIVITY"
    case Checkout => "CHECKOUT" case Merge => "MERGE" case Msearch => "M-SEARCH"
    case Notify => "NOTIFY" case Subscribe => "SUBSCRIBE" case Unsubscribe => "UNSUBSCRIBE"
    case Patch => "PATCH" case Purge => "PURGE" case Mkcalendar => "MKCALENDAR"
    case Link => "LINK" case Unlink => "UNLINK" case Source => "SOURCE"
  }

  /** The method assumed after the first letter of a request line. */
  function FirstMethod(ch: char): Option<Method> {
    match ch
    case 'A' => Some(Acl) case 'B' => Some(Bind) case 'C' => Some(Connect) case 'D' => Some(Delete)
    case 'G' => Some(Get) case 'H' => Some(Head) case 'L' => Some(Lock) case 'M' => Some(Mkcol)
    case 'N' => Some(Notify) case 'O' => Some(Options) case 'P' => Some(Post) case 'R' => Some(Report)
    case 'S' => Some(Subscribe) case 'T' => Some(Trace) case 'U' => Some(Unlock)
    case _ => None
  }

  /** Where a letter that is not the expected one leads: another method with the same prefix. */
  function OtherMethod(m: Method, index: nat, ch: char): Option<Method> {
    if m.Post? && index == 1 then
      if ch == 'U' then Some(Put) else if ch == 'A' then Some(Patch) else if ch == 'R' then Some(Propfind) else None
    else if m.Put? && index == 2 && ch == 'R' then Some(Purge)
    else if m.Connect? && index == 1 && ch == 'H' then Some(Checkout)
    else if m.Connect? && index == 2 && ch == 'P' then Some(Copy)
    else if m.Mkcol? && index == 1 then
      if ch == 'O' then Some(Move) else if ch == 'E' then Some(Merge) else if ch == '-' then Some(Msearch) else None
    else if m.Mkcol? && index == 2 && ch == 'A' then Some(Mkactivity)
    else if m.Mkcol? && index == 3 && ch == 'A' then Some(Mkcalendar)
    else if m.Subscribe? && index == 1 then
      if ch == 'E' then Some(Search) else if ch == 'O' then Some(Source) else None
    else if m.Report? && index == 2 && ch == 'B' then Some(Rebind)
    else if m.Propfind? && index == 4 && ch == 'P' then Some(Proppatch)
    else if m.Lock? && index == 1 && ch == 'I' then Some(Link)
    else if m.Unlock? && index == 2 then
      if ch == 'S' then Some(Unsubscribe) else if ch == 'B' then Some(Unbind) else None
    else if m.Unlock? && index == 3 && ch == 'I' then Some(Unlink)
    else None
  }

  // ---------------------------------------------------------------- character classes

  /** `c | 0x20` */
  function Lower(c: char): char {
    if c as int < 256 && (c as int / 32) % 2 == 0 then (c as int + 32) as char else c
  }

  predicate IsAlpha(c: char) { 'a' <= c <= 'z' || 'A' <= c <= 'Z' }

  predicate IsNum(c: char) { '0' <= c <= '9' }

  predicate IsAlphaNum(c: char) { IsAlpha(c) || IsNum(c) }

  predicate IsHex(c: char) { IsNum(c) || 'a' <= c <= 'f' || 'A' <= c <= 'F' }

  predicate IsUserinfoChar(c: char) {
    || IsAlphaNum(c) || c == '!' || '$' <= c <= '.' || c == ':' || c == ';' || c == '=' || c == '_' || c == '~'
  }

  predicate IsHostChar(c: char) { IsAlphaNum(c) || c == '.' || c == '-' }

  /** Bytes that may stand in a URL path, query or fragment (strict mode). */
  predicate IsUrlChar(c: char) { '!' <= c <= '~' && c != '#' && c != '?' }

  predicate IsTokenMark(c: char) {
    || c == '!' || '#' <= c <= '\'' || c == '*' || c == '+' || c == '-' || c == '.'
    || '^' <= c <= '`' || c == '|' || c == '~'
  }

  /** The lower-cased character if it may stand in a header name, 0 otherwise. */
  function TokenChar(c: char): char {
    if 'A' <= c <= 'Z' then (c as int + 32) as char
    else if 'a' <= c <= 'z' || IsNum(c) || IsTokenMark(c) then c
    else '\0'
  }

  predicate IsHeaderChar(c: char) {
    c == CR || c == LF || c == '\t' || (c as int > 31 && c as int != 127)
  }

  /** The value of a hexadecimal digit, or -1. The table of the original spells out
      its first 128 entries only; the remaining ones are 0, not -1. */
  function Unhex(c: char): int {
    if '0' <= c <= '9' then c as int - '0' as int
    else if 'a' <= c <= 'f' then c as int - 'a' as int + 10
    else if 'A' <= c <= 'F' then c as int - 'A' as int + 10
    else if c as int >= 128 then 0
    else -1
  }

  lemma UnhexDigit(c: char)
    ensures -1 <= Unhex(c) < 16
  {
  }

  // ---------------------------------------------------------------- callbacks

  datatype DataKind = Url | Status | Field | Value | Body

  /** A callback, with what it is given or may look up in the parser. */
  datatype Event =
    | Data(kind: DataKind, text: string)
    | MessageBegin
    | HeadersComplete(head: HeadView)
    | MessageComplete(keepAlive: bool)
    | ChunkHeader(size: nat)
    | ChunkComplete

  /** Append one callback, joining it to the last one if both carry data of one kind. */
  function Emit(trace: seq<Event>, e: Event): seq<Event> {
    if |trace| > 0 && e.Data? && trace[|trace| - 1].Data? && trace[|trace| - 1].kind == e.kind then
      trace[..|trace| - 1] + [Data(e.kind, trace[|trace| - 1].text + e.text)]
    else
      trace + [e]
  }

  /** A list of callbacks with all adjacent data callbacks of one kind joined. */
  function Joined(calls: seq<Event>): seq<Event> {
    if calls == [] then [] else Emit(Joined(calls[..|calls| - 1]), calls[|calls| - 1])
  }

  /** The last callback carried data of this kind. */
  predicate EndsWith(trace: seq<Event>, kind: DataKind) {
    |trace| > 0 && trace[|trace| - 1].Data? && trace[|trace| - 1].kind == kind
  }

  lemma JoinedSnoc(calls: seq<Event>, e: Event)
    ensures Joined(calls + [e]) == Emit(Joined(calls), e)
  {
    assert (calls + [e])[..|calls|] == calls;
  }

  /** Data handed over in two callbacks joins to the data handed over in one. */
  lemma EmitTwice(trace: seq<Event>, kind: DataKind, a: string, b: string)
    ensures Emit(Emit(trace, Data(kind, a)), Data(kind, b)) == Emit(trace, Data(kind, a + b))
    ensures EndsWith(Emit(trace, Data(kind, a)), kind)
  {
    if EndsWith(trace, kind) {
      assert trace[|trace| - 1].text + a + b == trace[|trace| - 1].text + (a + b);
    }
  }

  /** An empty data callback right after one of its own kind joins to nothing. */
  lemma EmitNothing(trace: seq<Event>, kind: DataKind)
    requires EndsWith(trace, kind)
    ensures Emit(trace, Data(kind, "")) == trace
  {
    assert trace[|trace| - 1].text + "" == trace[|trace| - 1].text;
  }

  // ---------------------------------------------------------------- parser fields

  /** What the headers-complete callback may look at: the public fields, none of
      which depends on how the input was cut. */
  datatype HeadView = HeadView(
    kind: ParserType, flags: set<Flag>, contentLength: nat, httpMajor: nat, httpMinor: nat,
    statusCode: nat, meth: Method, upgrade: bool)

  datatype Reply = GoOn | NoBody | NoBodyUpgrade

  /** The header limit and the client's headers-complete callback. */
  datatype Settings = Settings(limit: nat, onHeadersComplete: (HeadView, seq<Event>) -> Reply)

  datatype Fields = Fields(
    kind: ParserType,
    flags: set<Flag>,
    state: State,
    headerState: HeaderState,
    index: nat,
    nread: nat,
    contentLength: nat,
    httpMajor: nat,
    httpMinor: nat,
    statusCode: nat,
    meth: Method,
    upgrade: bool)
  {
    function View(): HeadView {
      HeadView(kind, flags, contentLength, httpMajor, httpMinor, statusCode, meth, upgrade)
    }

    /** Only the end of the connection can end the body of this message. */
    predicate MessageNeedsEof() {
      && kind != Request
      && statusCode / 100 != 1 && statusCode != 204 && statusCode != 304 && SkipBody !in flags
      && Chunked !in flags && contentLength == NO_LENGTH
    }

    predicate ShouldKeepAlive() {
      && (if httpMajor > 0 && httpMinor > 0 then Close !in flags else KeepAlive in flags)
      && !MessageNeedsEof()
    }

    /** The state after the end of a message. */
    function NewMessage(): State {
      if !ShouldKeepAlive() then Dead else if kind == Request then StartReq else StartRes
    }
  }

  /** The parser's fields together with the callbacks made so far. */
  datatype Parser = Parser(f: Fields, trace: seq<Event>)

  /** http_parser_init */
  function InitialFields(kind: ParserType): Fields {
    Fields(kind, {}, match kind case Request => StartReq case Response => StartRes case Both => StartReqOrRes,
           General, 0, 0, 0, 0, 0, 0, Delete, false)
  }
}
