/** The parser as a byte-at-a-time machine: what one byte does, for every state,
    with no buffer, no mark and no block skipping. A data callback is made for every
    single byte; `Emit` joins adjacent ones, so the trace is what a client sees.
 */
module HttpStep {
  import opened Options
  import opened HttpTypes

  /** What executing a state on a byte does: the new fields and the callback made, if any. */
  datatype Action =
    | Break(f: Fields, say: Option<Event>)   // the byte is consumed
    | Again(f: Fields, say: Option<Event>)   // the same byte is executed in another state
    | Exit(f: Fields, say: Option<Event>)    // the byte is consumed and the rest is another protocol
    | Error(e: Errno)

  /** Executing a byte again always moves down this ranking of the states. */
  function Rank(s: State): nat {
    if s == HeaderValue || s == HeaderValueLws || s == HeaderValueDiscardLws then 5
    else if s == HeaderFieldStart then 4
    else if s == HeadersAlmostDone then 3
    else if s == HeadersDone || s == ResStatusCode then 2
    else if s == StartReqOrRes || s == ResStatusStart || s == BodyIdentity then 1
    else 0
  }

  // ---------------------------------------------------------------- one state, one byte

  function StepStart(f: Fields, ch: char): (a: Action)
    ensures a.Again? ==> Rank(a.f.state) < Rank(f.state)
  {
    if f.state == Dead then
      if ch == CR || ch == LF then Break(f, None) else Error(ClosedConnection)
    else if f.state == StartReqOrRes then
      if ch == CR || ch == LF then Break(f, None)
      else if ch == 'H' then
        Break(f.(flags := {}, contentLength := NO_LENGTH, state := ResOrRespH), Some(MessageBegin))
      else Again(f.(flags := {}, contentLength := NO_LENGTH, kind := Request, state := StartReq), None)
    else if f.state == ResOrRespH then
      if ch == 'T' then Break(f.(kind := Response, state := ResHT), None)
      else if ch == 'E' then Break(f.(kind := Request, meth := Head, index := 2, state := ReqMethod), None)
      else Error(InvalidConstant)
    else if f.state == StartRes then
      if ch == CR || ch == LF then Break(f, None)
      else if ch == 'H' then
        Break(f.(flags := {}, contentLength := NO_LENGTH, state := ResH), Some(MessageBegin))
      else Error(InvalidConstant)
    else if f.state == StartReq then
      if ch == CR || ch == LF then Break(f, None)
      else if !IsAlpha(ch) then Error(InvalidMethod)
      else (match FirstMethod(ch)
            case None => Error(InvalidMethod)
            case Some(m) =>
              Break(f.(flags := {}, contentLength := NO_LENGTH, meth := m, index := 1, state := ReqMethod),
                    Some(MessageBegin)))
    else Break(f, None)
  }

  /** A byte that must satisfy `ok` and says nothing by itself. */
  function Expect(f: Fields, ok: bool, next: State, e: Errno): Action {
    if ok then Break(f.(state := next), None) else Error(e)
  }

  function Digit(ch: char): nat
    requires IsNum(ch)
  {
    ch as int - '0' as int
  }

  function StepStatusLine(f: Fields, ch: char): (a: Action)
    ensures a.Again? ==> Rank(a.f.state) < Rank(f.state)
  {
    if f.state == ResH then Expect(f, ch == 'T', ResHT, Strict)
    else if f.state == ResHT then Expect(f, ch == 'T', ResHTT, Strict)
    else if f.state == ResHTT then Expect(f, ch == 'P', ResHTTP, Strict)
    else if f.state == ResHTTP then Expect(f, ch == '/', ResHttpMajor, Strict)
    else if f.state == ResHttpMajor then
      if !IsNum(ch) then Error(InvalidVersion)
      else Break(f.(httpMajor := Digit(ch), state := ResHttpDot), None)
    else if f.state == ResHttpDot then Expect(f, ch == '.', ResHttpMinor, InvalidVersion)
    else if f.state == ResHttpMinor then
      if !IsNum(ch) then Error(InvalidVersion)
      else Break(f.(httpMinor := Digit(ch), state := ResHttpEnd), None)
    else if f.state == ResHttpEnd then Expect(f, ch == ' ', ResFirstStatusCode, InvalidVersion)
    else if f.state == ResFirstStatusCode then
      if IsNum(ch) then Break(f.(statusCode := Digit(ch), state := ResStatusCode), None)
      else if ch == ' ' then Break(f, None)
      else Error(InvalidStatus)
    else if f.state == ResStatusCode then
      if IsNum(ch) then
        var code := f.statusCode * 10 + Digit(ch);
        if code > 999 then Error(InvalidStatus) else Break(f.(statusCode := code), None)
      else if ch == ' ' then Break(f.(state := ResStatusStart), None)
      else if ch == CR || ch == LF then Again(f.(state := ResStatusStart), None)
      else Error(InvalidStatus)
    else if f.state == ResStatusStart then
      var g := f.(state := ResStatus, index := 0);
      if ch == CR || ch == LF then Again(g, Some(Data(Status, ""))) else Break(g, Some(Data(Status, [ch])))
    else if f.state == ResStatus then
      if ch == CR then Break(f.(state := ResLineAlmostDone), None)
      else if ch == LF then Break(f.(state := HeaderFieldStart), None)
      else Break(f, Some(Data(Status, [ch])))
    else if f.state == ResLineAlmostDone then Expect(f, ch == LF, HeaderFieldStart, Strict)
    else Break(f, None)
  }

  function StepMethod(f: Fields, ch: char): (a: Action)
    ensures !a.Again?
  {
    var matcher := MethodString(f.meth);
    var index := f.index;
    if ch == '\0' then Error(InvalidMethod)
    else if ch == ' ' && index == |matcher| then Break(f.(state := ReqSpacesBeforeUrl, index := index + 1), None)
    else if index < |matcher| && ch == matcher[index] then Break(f.(index := index + 1), None)
    else if 'A' <= ch <= 'Z' || ch == '-' then
      match OtherMethod(f.meth, index, ch)
      case Some(m) => Break(f.(meth := m, index := index + 1), None)
      case None => Error(InvalidMethod)
    else Error(InvalidMethod)
  }

  /** parse_url_char: the URL automaton, shared with the URL splitter. */
  function UrlChar(s: State, ch: char): State {
    if ch == ' ' || ch == CR || ch == LF || ch == '\t' || ch == FF then Dead
    else if s == ReqSpacesBeforeUrl then
      if ch == '/' || ch == '*' then ReqPath else if IsAlpha(ch) then ReqSchema else Dead
    else if s == ReqSchema then
      if IsAlpha(ch) then ReqSchema else if ch == ':' then ReqSchemaSlash else Dead
    else if s == ReqSchemaSlash then if ch == '/' then ReqSchemaSlashSlash else Dead
    else if s == ReqSchemaSlashSlash then if ch == '/' then ReqServerStart else Dead
    else if s == ReqServerWithAt then if ch == '@' then Dead else UrlServerChar(ch)
    else if s == ReqServerStart || s == ReqServer then UrlServerChar(ch)
    else if s == ReqPath then
      if IsUrlChar(ch) then ReqPath else if ch == '?' then ReqQueryStringStart
      else if ch == '#' then ReqFragmentStart else Dead
    else if s == ReqQueryStringStart || s == ReqQueryString then
      if IsUrlChar(ch) || ch == '?' then ReqQueryString else if ch == '#' then ReqFragmentStart else Dead
    else if s == ReqFragmentStart then
      if IsUrlChar(ch) || ch == '?' then ReqFragment else if ch == '#' then ReqFragmentStart else Dead
    else if s == ReqFragment then
      if IsUrlChar(ch) || ch == '?' || ch == '#' then ReqFragment else Dead
    else Dead
  }

  function UrlServerChar(ch: char): State {
    if ch == '/' then ReqPath
    else if ch == '?' then ReqQueryStringStart
    else if ch == '@' then ReqServerWithAt
    else if IsUserinfoChar(ch) || ch == '[' || ch == ']' then ReqServer
    else Dead
  }

  lemma UrlCharStays(s: State, ch: char)
    ensures UrlChar(s, ch) == Dead || InUrl(UrlChar(s, ch))
  {
  }

  /** The states in which a space or the end of the line ends the URL. */
  predicate UrlEndableState(s: State) {
    ReqServer <= s <= ReqFragment
  }

  function StepUrl(f: Fields, ch: char): (a: Action)
    ensures !a.Again?
  {
    if f.state == ReqSpacesBeforeUrl then
      if ch == ' ' then Break(f, None)
      else
        var s := UrlChar(if f.meth == Connect then ReqServerStart else ReqSpacesBeforeUrl, ch);
        if s == Dead then Error(InvalidUrl) else Break(f.(state := s), Some(Data(Url, [ch])))
    else if UrlEndableState(f.state) && ch == ' ' then
      Break(f.(state := ReqHttpStart), None)
    else if UrlEndableState(f.state) && (ch == CR || ch == LF) then
      Break(f.(httpMajor := 0, httpMinor := 9, state := if ch == CR then ReqLineAlmostDone else HeaderFieldStart),
            None)
    else
      var s := UrlChar(f.state, ch);
      if s == Dead then Error(InvalidUrl) else Break(f.(state := s), Some(Data(Url, [ch])))
  }

  function StepRequestVersion(f: Fields, ch: char): (a: Action)
    ensures !a.Again?
  {
    if f.state == ReqHttpStart then
      if ch == ' ' then Break(f, None)
      else if ch == 'H' then Break(f.(state := ReqHttpH), None)
      else if ch == 'I' && f.meth == Source then Break(f.(state := ReqHttpI), None)
      else Error(InvalidConstant)
    else if f.state == ReqHttpH then Expect(f, ch == 'T', ReqHttpHT, Strict)
    else if f.state == ReqHttpHT then Expect(f, ch == 'T', ReqHttpHTT, Strict)
    else if f.state == ReqHttpHTT then Expect(f, ch == 'P', ReqHttpHTTP, Strict)
    else if f.state == ReqHttpI then Expect(f, ch == 'C', ReqHttpIC, Strict)
    else if f.state == ReqHttpIC then Expect(f, ch == 'E', ReqHttpHTTP, Strict)
    else if f.state == ReqHttpHTTP then Expect(f, ch == '/', ReqHttpMajor, Strict)
    else if f.state == ReqHttpMajor then
      if !IsNum(ch) then Error(InvalidVersion)
      else Break(f.(httpMajor := Digit(ch), state := ReqHttpDot), None)
    else if f.state == ReqHttpDot then Expect(f, ch == '.', ReqHttpMinor, InvalidVersion)
    else if f.state == ReqHttpMinor then
      if !IsNum(ch) then Error(InvalidVersion)
      else Break(f.(httpMinor := Digit(ch), state := ReqHttpEnd), None)
    else if f.state == ReqHttpEnd then
      if ch == CR then Break(f.(state := ReqLineAlmostDone), None)
      else if ch == LF then Break(f.(state := HeaderFieldStart), None)
      else Error(InvalidVersion)
    else if f.state == ReqLineAlmostDone then Expect(f, ch == LF, HeaderFieldStart, LfExpected)
    else Break(f, None)
  }

  // ---------------------------------------------------------------- header names

  /** One more character `c` of a name that so far agrees with `name[..index + 1]`. */
  function MatchName(name: string, index: nat, c: char, here: HeaderState, done: HeaderState): HeaderState {
    if index + 1 >= |name| || c != name[index + 1] then General
    else if index + 1 == |name| - 1 then done
    else here
  }

  /** The header state after one more (lower-cased) character of a header name. */
  function NameStep(hs: HeaderState, index: nat, c: char): HeaderState {
    if hs.C? then if c == 'o' then CO else General
    else if hs.CO? then if c == 'n' then CON else General
    else if hs.CON? then if c == 'n' then MatchingConnection else if c == 't' then MatchingContentLength else General
    else if hs.MatchingConnection? then MatchName("connection", index, c, hs, ConnectionName)
    else if hs.MatchingProxyConnection? then MatchName("proxy-connection", index, c, hs, ConnectionName)
    else if hs.MatchingContentLength? then MatchName("content-length", index, c, hs, ContentLengthName)
    else if hs.MatchingTransferEncoding? then MatchName("transfer-encoding", index, c, hs, TransferEncodingName)
    else if hs.MatchingUpgrade? then MatchName("upgrade", index, c, hs, UpgradeName)
    else General
  }

  /** The header states in which every character of a name is counted. */
  predicate NameMatching(hs: HeaderState) {
    || hs.C? || hs.CO? || hs.CON? || hs.MatchingConnection? || hs.MatchingProxyConnection?
    || hs.MatchingContentLength? || hs.MatchingTransferEncoding? || hs.MatchingUpgrade?
  }

  function FirstNameState(c: char): HeaderState {
    match c
    case 'c' => C
    case 'p' => MatchingProxyConnection
    case 't' => MatchingTransferEncoding
    case 'u' => MatchingUpgrade
    case _ => General
  }

  function StepHeaderName(f: Fields, ch: char): (a: Action)
    ensures a.Again? ==> Rank(a.f.state) < Rank(f.state)
  {
    var c := TokenChar(ch);
    if f.state == HeaderFieldStart then
      if ch == CR then Break(f.(state := HeadersAlmostDone), None)
      else if ch == LF then Again(f.(state := HeadersAlmostDone), None)
      else if c == '\0' then Error(InvalidHeaderToken)
      else Break(f.(index := 0, state := HeaderField, headerState := FirstNameState(c)), Some(Data(Field, [ch])))
    else if c != '\0' then
      var hs := f.headerState;
      Break(f.(headerState := NameStep(hs, f.index, c), index := if NameMatching(hs) then f.index + 1 else f.index),
            Some(Data(Field, [ch])))
    else if ch == ':' then Break(f.(state := HeaderValueDiscardWs), None)
    else Error(InvalidHeaderToken)
  }

  // ---------------------------------------------------------------- header values

  /** What a header value has told so far. */
  datatype ValueState = ValueState(hs: HeaderState, index: nat, flags: set<Flag>, contentLength: nat)

  datatype ValueOutcome = Fine(v: ValueState) | Bad(e: Errno)

  /** The first character of a value (or of a folded line). */
  function ValueStart(v: ValueState, ch: char): ValueOutcome {
    var c := Lower(ch);
    if v.hs.UpgradeName? then Fine(v.(flags := v.flags + {Upgrade}, hs := General))
    else if v.hs.TransferEncodingName? then Fine(v.(hs := if c == 'c' then MatchingChunked else General))
    else if v.hs.ContentLengthName? then
      if !IsNum(ch) then Bad(InvalidContentLength)
      else if ContentLength in v.flags then Bad(UnexpectedContentLength)
      else Fine(v.(flags := v.flags + {ContentLength}, contentLength := Digit(ch), hs := ContentLengthNum))
    else if v.hs.ContentLengthWs? then Fine(v)
    else if v.hs.ConnectionName? then
      Fine(v.(hs := if c == 'k' then MatchingKeepAlive else if c == 'c' then MatchingClose
                    else if c == 'u' then MatchingConnectionUpgrade else Token))
    else if v.hs.TokenStart? then Fine(v)
    else Fine(v.(hs := General))
  }

  function MatchValue(v: ValueState, word: string, c: char, done: HeaderState, otherwise: HeaderState): ValueState {
    var index := v.index + 1;
    v.(index := index,
       hs := if index >= |word| || c != word[index] then otherwise
             else if index == |word| - 1 then done else v.hs)
  }

  /** The flag a recognised `Connection` token stands for. */
  function TokenFlag(hs: HeaderState): set<Flag> {
    if hs.KeepAliveValue? then {KeepAlive}
    else if hs.CloseValue? then {Close}
    else if hs.UpgradeValue? then {ConnectionUpgrade}
    else {}
  }

  /** The largest content length that may be followed by one more decimal digit. */
  const MAX_BEFORE_DIGIT: nat := (NO_LENGTH - 10) / 10

  /** One more character of a value. */
  function ValueStep(v: ValueState, ch: char): ValueOutcome {
    var c := Lower(ch);
    if v.hs.ContentLengthNum? then
      if ch == ' ' then Fine(v.(hs := ContentLengthWs))
      else if !IsNum(ch) then Bad(InvalidContentLength)
      else if MAX_BEFORE_DIGIT < v.contentLength then Bad(InvalidContentLength)
      else Fine(v.(contentLength := v.contentLength * 10 + Digit(ch)))
    else if v.hs.ContentLengthWs? then if ch == ' ' then Fine(v) else Bad(InvalidContentLength)
    else if v.hs.MatchingChunked? then Fine(MatchValue(v, "chunked", c, ChunkedValue, General))
    else if v.hs.TokenStart? then
      Fine(v.(hs := if c == 'k' then MatchingKeepAlive else if c == 'c' then MatchingClose
                    else if c == 'u' then MatchingConnectionUpgrade
                    else if TokenChar(c) != '\0' then Token
                    else if c == ' ' || c == '\t' then TokenStart
                    else General))
    else if v.hs.MatchingKeepAlive? then Fine(MatchValue(v, "keep-alive", c, KeepAliveValue, Token))
    else if v.hs.MatchingClose? then Fine(MatchValue(v, "close", c, CloseValue, Token))
    else if v.hs.MatchingConnectionUpgrade? then Fine(MatchValue(v, "upgrade", c, UpgradeValue, Token))
    else if v.hs.Token? then Fine(if ch == ',' then v.(hs := TokenStart, index := 0) else v)
    else if v.hs.ChunkedValue? then Fine(if ch != ' ' then v.(hs := General) else v)
    else if v.hs.KeepAliveValue? then Fine(ValueTokenEnd(v, ch))
    else if v.hs.CloseValue? then Fine(ValueTokenEnd(v, ch))
    else if v.hs.UpgradeValue? then Fine(ValueTokenEnd(v, ch))
    else Fine(v.(hs := General))
  }

  function ValueTokenEnd(v: ValueState, ch: char): ValueState {
    if ch == ',' then v.(flags := v.flags + TokenFlag(v.hs), hs := TokenStart, index := 0)
    else if ch != ' ' then v.(hs := Token)
    else v
  }

  function ValueOf(f: Fields): ValueState {
    ValueState(f.headerState, f.index, f.flags, f.contentLength)
  }

  function WithValue(f: Fields, v: ValueState): Fields {
    f.(headerState := v.hs, index := v.index, flags := v.flags, contentLength := v.contentLength)
  }

  /** The flag a finished header sets. */
  function FinishedFlag(hs: HeaderState): set<Flag> {
    if hs == ChunkedValue then {Chunked} else TokenFlag(hs)
  }

  function StepValueStart(f: Fields, ch: char): (a: Action)
    ensures !a.Again?
  {
    match ValueStart(ValueOf(f).(index := 0), ch)
    case Fine(v) => Break(WithValue(f, v).(state := HeaderValue), Some(Data(Value, [ch])))
    case Bad(e) => Error(e)
  }

  function StepInValue(f: Fields, ch: char): (a: Action)
    ensures !a.Again?
  {
    if !IsHeaderChar(ch) then Error(InvalidHeaderToken)
    else match ValueStep(ValueOf(f), ch)
      case Fine(v) => Break(WithValue(f, v), Some(Data(Value, [ch])))
      case Bad(e) => Error(e)
  }

  function StepHeaderValue(f: Fields, ch: char): (a: Action)
    ensures a.Again? ==> Rank(a.f.state) < Rank(f.state)
  {
    if f.state == HeaderValueDiscardWs then
      if ch == ' ' || ch == '\t' then Break(f, None)
      else if ch == CR then Break(f.(state := HeaderValueDiscardWsAlmostDone), None)
      else if ch == LF then Break(f.(state := HeaderValueDiscardLws), None)
      else StepValueStart(f, ch)
    else if f.state == HeaderValueStart then StepValueStart(f, ch)
    else if f.state == HeaderValue then
      if ch == CR then Break(f.(state := HeaderAlmostDone), None)
      else if ch == LF then Again(f.(state := HeaderAlmostDone), None)
      else StepInValue(f, ch)
    else if f.state == HeaderAlmostDone then Expect(f, ch == LF, HeaderValueLws, LfExpected)
    else if f.state == HeaderValueLws then
      if ch == ' ' || ch == '\t' then
        Again(f.(state := HeaderValueStart,
                 headerState := if f.headerState == ContentLengthNum then ContentLengthWs else f.headerState), None)
      else Again(f.(state := HeaderFieldStart, flags := f.flags + FinishedFlag(f.headerState)), None)
    else if f.state == HeaderValueDiscardWsAlmostDone then Expect(f, ch == LF, HeaderValueDiscardLws, Strict)
    else if f.state == HeaderValueDiscardLws then
      if ch == ' ' || ch == '\t' then Break(f.(state := HeaderValueDiscardWs), None)
      else if f.headerState == ContentLengthName then Error(InvalidContentLength)
      else Again(f.(state := HeaderFieldStart, flags := f.flags + FinishedFlag(f.headerState)), Some(Data(Value, "")))
    else Break(f, None)
  }

  // ---------------------------------------------------------------- end of the headers

  /** The upgrade flag as the headers-complete callback sees it. */
  function UpgradeOf(f: Fields): bool {
    if Upgrade in f.flags && ConnectionUpgrade in f.flags then f.kind == Request || f.statusCode == 101
    else f.meth == Connect
  }

  /** What the headers-complete callback may look at. */
  function CallbackView(f: Fields): HeadView { f.(upgrade := UpgradeOf(f)).View() }

  function WithReply(f: Fields, r: Reply): Fields {
    match r
    case GoOn => f
    case NoBody => f.(flags := f.flags + {SkipBody})
    case NoBodyUpgrade => f.(flags := f.flags + {SkipBody}, upgrade := true)
  }

  function Finished(f: Fields): Fields { f.(state := f.NewMessage()) }

  function Farewell(f: Fields): Option<Event> { Some(MessageComplete(f.ShouldKeepAlive())) }

  predicate HasBody(f: Fields) {
    Chunked in f.flags || (f.contentLength > 0 && f.contentLength != NO_LENGTH)
  }

  /** `reply` is what the headers-complete callback answers if it is called. */
  function StepHeadersEnd(f: Fields, ch: char, reply: Reply): (a: Action)
    ensures a.Again? ==> Rank(a.f.state) < Rank(f.state)
  {
    if ch != LF then Error(Strict)
    else if f.state == HeadersAlmostDone then
      if Trailing in f.flags then Again(f.(state := MessageDone), Some(ChunkComplete))
      else if Chunked in f.flags && ContentLength in f.flags then Error(UnexpectedContentLength)
      else Again(WithReply(f.(state := HeadersDone, upgrade := UpgradeOf(f)), reply),
                 Some(HeadersComplete(CallbackView(f))))
    else
      var g := f.(nread := 0);
      if f.upgrade && (f.meth == Connect || SkipBody in f.flags || !HasBody(f)) then Exit(Finished(g), Farewell(g))
      else if SkipBody in f.flags then Break(Finished(g), Farewell(g))
      else if Chunked in f.flags then Break(g.(state := ChunkSizeStart), None)
      else if f.contentLength == 0 then Break(Finished(g), Farewell(g))
      else if f.contentLength != NO_LENGTH then Break(g.(state := BodyIdentity), None)
      else if !f.MessageNeedsEof() then Break(Finished(g), Farewell(g))
      else Break(g.(state := BodyIdentityEof), None)
  }

  // ---------------------------------------------------------------- bodies

  function StepBody(f: Fields, ch: char): (a: Action)
    ensures a.Again? ==> Rank(a.f.state) < Rank(f.state)
  {
    if f.state == BodyIdentity then
      if f.contentLength <= 1 then Again(f.(contentLength := 0, state := MessageDone), Some(Data(Body, [ch])))
      else Break(f.(contentLength := f.contentLength - 1), Some(Data(Body, [ch])))
    else if f.state == BodyIdentityEof then Break(f, Some(Data(Body, [ch])))
    else if f.state == MessageDone then
      if f.upgrade then Exit(Finished(f), Farewell(f)) else Break(Finished(f), Farewell(f))
    else Break(f, None)
  }

  /** The largest chunk size that may be followed by one more hexadecimal digit. */
  const MAX_BEFORE_HEX: nat := (NO_LENGTH - 16) / 16

  function StepChunk(f: Fields, ch: char): (a: Action)
    ensures !a.Again?
  {
    if f.state == ChunkSizeStart then
      if Unhex(ch) == -1 then Error(InvalidChunkSize)
      else Break(f.(contentLength := Unhex(ch), state := ChunkSize), None)
    else if f.state == ChunkSize then
      if ch == CR then Break(f.(state := ChunkSizeAlmostDone), None)
      else if Unhex(ch) == -1 then
        if ch == ';' || ch == ' ' then Break(f.(state := ChunkParameters), None) else Error(InvalidChunkSize)
      else if MAX_BEFORE_HEX < f.contentLength then Error(InvalidContentLength)
      else Break(f.(contentLength := f.contentLength * 16 + Unhex(ch)), None)
    else if f.state == ChunkParameters then
      if ch == CR then Break(f.(state := ChunkSizeAlmostDone), None) else Break(f, None)
    else if f.state == ChunkSizeAlmostDone then
      if ch != LF then Error(Strict)
      else if f.contentLength == 0 then
        Break(f.(nread := 0, flags := f.flags + {Trailing}, state := HeaderFieldStart), Some(ChunkHeader(0)))
      else Break(f.(nread := 0, state := ChunkData), Some(ChunkHeader(f.contentLength)))
    else if f.state == ChunkData then
      if f.contentLength <= 1 then
        Break(f.(contentLength := 0, state := ChunkDataAlmostDone), Some(Data(Body, [ch])))
      else Break(f.(contentLength := f.contentLength - 1), Some(Data(Body, [ch])))
    else if f.state == ChunkDataAlmostDone then Expect(f, ch == CR, ChunkDataDone, Strict)
    else if f.state == ChunkDataDone then
      if ch != LF then Error(Strict)
      else Break(f.(nread := 0, state := ChunkSizeStart), Some(ChunkComplete))
    else Break(f, None)
  }

  // ---------------------------------------------------------------- one byte

  // The parts of a message, as sets of states.

  predicate InStart(s: State) { s <= StartRes || s == StartReq }

  predicate InStatusLine(s: State) { ResH <= s <= ResLineAlmostDone }

  predicate InUrl(s: State) { ReqSchema <= s <= ReqFragment }

  predicate InVersion(s: State) { ReqHttpStart <= s <= ReqLineAlmostDone }

  predicate InName(s: State) { s == HeaderFieldStart || s == HeaderField }

  predicate InValue(s: State) { HeaderValueDiscardWs <= s <= HeaderAlmostDone }

  predicate InHeadersEnd(s: State) { s == HeadersAlmostDone || s == HeadersDone }

  predicate InBody(s: State) { BodyIdentity <= s }

  predicate InChunks(s: State) { ChunkSizeStart <= s <= ChunkSizeAlmostDone || ChunkData <= s <= ChunkDataDone }

  function Step(cfg: Settings, p: Parser, ch: char): (a: Action)
    ensures a.Again? ==> Rank(a.f.state) < Rank(p.f.state)
  {
    var s := p.f.state;
    if InStart(s) then StepStart(p.f, ch)
    else if InStatusLine(s) then StepStatusLine(p.f, ch)
    else if s == ReqMethod then StepMethod(p.f, ch)
    else if s == ReqSpacesBeforeUrl || InUrl(s) then StepUrl(p.f, ch)
    else if InVersion(s) then StepRequestVersion(p.f, ch)
    else if InName(s) then StepHeaderName(p.f, ch)
    else if InValue(s) then StepHeaderValue(p.f, ch)
    else if InHeadersEnd(s) then StepHeadersEnd(p.f, ch, cfg.onHeadersComplete(CallbackView(p.f), p.trace))
    else if InBody(s) then StepBody(p.f, ch)
    else StepChunk(p.f, ch)
  }

  function Speak(trace: seq<Event>, say: Option<Event>): seq<Event> {
    match say
    case None => trace
    case Some(e) => Emit(trace, e)
  }

  /** The parser after an action that is no error. */
  function After(p: Parser, a: Action): Parser
    requires !a.Error?
  {
    Parser(a.f, Speak(p.trace, a.say))
  }

  // ---------------------------------------------------------------- a whole run

  datatype Result =
    | Running(p: Parser)                // every byte was consumed
    | Exited(p: Parser, consumed: nat)  // the message announced another protocol
    | Failed(e: Errno, at: nat)         // the byte at this offset is an error

  /** Executes the byte at offset `at`, already counted, until some state consumes it. */
  function Exec(cfg: Settings, p: Parser, ch: char, at: nat): Result
    decreases Rank(p.f.state)
  {
    var a := Step(cfg, p, ch);
    match a
    case Break(_, _) => Running(After(p, a))
    case Again(_, _) => Exec(cfg, After(p, a), ch, at)
    case Exit(_, _) => Exited(After(p, a), at + 1)
    case Error(e) => Failed(e, at)
  }

  function Counted(p: Parser): Parser {
    if ParsingHeader(p.f.state) then p.(f := p.f.(nread := p.f.nread + 1)) else p
  }

  function Byte(cfg: Settings, p: Parser, ch: char, at: nat): Result {
    if ParsingHeader(p.f.state) && p.f.nread + 1 > cfg.limit then Failed(HeaderOverflow, at)
    else Exec(cfg, Counted(p), ch, at)
  }

  function Run(cfg: Settings, p: Parser, data: string): Result {
    if data == [] then Running(p)
    else
      match Run(cfg, p, data[..|data| - 1])
      case Running(q) => Byte(cfg, q, data[|data| - 1], |data| - 1)
      case Exited(q, n) => Exited(q, n)
      case Failed(e, at) => Failed(e, at)
  }

  /** The end of the connection. */
  function EndOfInput(p: Parser): Result {
    if p.f.state == BodyIdentityEof then
      Running(p.(trace := Emit(p.trace, MessageComplete(p.f.ShouldKeepAlive()))))
    else if p.f.state == Dead || p.f.state == StartReqOrRes || p.f.state == StartRes || p.f.state == StartReq then
      Running(p)
    else Failed(InvalidEofState, 0)
  }
}
