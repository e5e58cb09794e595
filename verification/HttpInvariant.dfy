/** What holds of the parser between any two bytes of any run, and the grammar that
    every sequence of callbacks obeys.
 */
module HttpInvariant {
  import opened Options
  import opened HttpTypes
  import opened HttpStep

  // ---------------------------------------------------------------- the grammar of callbacks

  /** How far the callbacks made so far have come. */
  datatype Phase =
    | Idle                            // between messages
    | Closed                          // after the last message of the connection
    | Opened                          // message begun
    | Line                            // URL or status given
    | Name(trailer: bool)             // a header name without its value
    | Valued(trailer: bool)           // a header name with its value
    | Headed                          // headers complete
    | Plain                           // some unchunked body
    | InChunk(size: nat, got: nat)    // inside a chunk of this size, with so many bytes given
    | ChunkEnded                      // a chunk is complete
    | InTrailer                       // the zero chunk is announced
    | ChunksEnded                     // the zero chunk is complete

  /** Which callback may follow, and where it leads. */
  function Next(ph: Phase, e: Event): Option<Phase> {
    match ph
    case Idle => if e.MessageBegin? then Some(Opened) else None
    case Closed => None
    case Opened =>
      if e.Data? && ((e.kind == Url && e.text != "") || e.kind == Status) then Some(Line) else None
    case Line =>
      if e.Data? && e.kind == Field && e.text != "" then Some(Name(false))
      else if e.HeadersComplete? then Some(Headed) else None
    case Name(trailer) => if e.Data? && e.kind == Value then Some(Valued(trailer)) else None
    case Valued(trailer) =>
      if e.Data? && e.kind == Field && e.text != "" then Some(Name(trailer))
      else if e.HeadersComplete? && !trailer then Some(Headed)
      else if e.ChunkComplete? && trailer then Some(ChunksEnded)
      else None
    case Headed =>
      if e.Data? && e.kind == Body && e.text != "" then Some(Plain)
      else if e.ChunkHeader? then Some(AfterChunkHeader(e.size))
      else if e.MessageComplete? then Some(AfterMessage(e.keepAlive))
      else None
    case Plain => if e.MessageComplete? then Some(AfterMessage(e.keepAlive)) else None
    case InChunk(size, got) =>
      if got == 0 && e.Data? && e.kind == Body && 0 < |e.text| <= size then Some(InChunk(size, |e.text|))
      else if got == size && e.ChunkComplete? then Some(ChunkEnded)
      else None
    case ChunkEnded => if e.ChunkHeader? then Some(AfterChunkHeader(e.size)) else None
    case InTrailer =>
      if e.Data? && e.kind == Field && e.text != "" then Some(Name(true))
      else if e.ChunkComplete? then Some(ChunksEnded)
      else None
    case ChunksEnded => if e.MessageComplete? then Some(AfterMessage(e.keepAlive)) else None
  }

  function AfterMessage(keepAlive: bool): Phase { if keepAlive then Idle else Closed }

  function AfterChunkHeader(size: nat): Phase { if size == 0 then InTrailer else InChunk(size, 0) }

  /** The phase after a whole trace; None if the trace breaks the grammar. */
  function PhaseAfter(trace: seq<Event>): Option<Phase> {
    if trace == [] then Some(Idle)
    else
      match PhaseAfter(trace[..|trace| - 1])
      case None => None
      case Some(ph) => Next(ph, trace[|trace| - 1])
  }

  /** The kind of data a trace ends in, if it ends in data. */
  function Tail(trace: seq<Event>): Option<DataKind> {
    if |trace| > 0 then TailOf(trace[|trace| - 1]) else None
  }

  function TailOf(e: Event): Option<DataKind> { if e.Data? then Some(e.kind) else None }

  /** The phase after a callback that may join the last one. */
  function NextJoined(ph: Phase, tail: Option<DataKind>, e: Event): Option<Phase> {
    if e.Data? && tail == Some(e.kind) then
      if !ph.InChunk? then Some(ph)
      else if ph.got + |e.text| <= ph.size then Some(InChunk(ph.size, ph.got + |e.text|))
      else None
    else Next(ph, e)
  }

  /** Two data callbacks of one kind lead where the joined one leads. */
  lemma NextOfJoined(ph: Phase, last: Event, e: Event)
    requires last.Data? && e.Data? && last.kind == e.kind && Next(ph, last).Some?
    requires NextJoined(Next(ph, last).value, Some(e.kind), e).Some?
    ensures Next(ph, Data(e.kind, last.text + e.text)) == NextJoined(Next(ph, last).value, Some(e.kind), e)
  {
  }

  lemma PhaseEmit(trace: seq<Event>, e: Event)
    requires PhaseAfter(trace).Some?
    ensures Tail(Emit(trace, e)) == TailOf(e)
    ensures NextJoined(PhaseAfter(trace).value, Tail(trace), e).Some? ==>
              PhaseAfter(Emit(trace, e)) == NextJoined(PhaseAfter(trace).value, Tail(trace), e)
  {
    hide Next;
    var n := |trace| - 1;
    if e.Data? && Tail(trace) == Some(e.kind) {
      var joined := Data(e.kind, trace[n].text + e.text);
      assert Emit(trace, e) == trace[..n] + [joined];
      assert (trace[..n] + [joined])[..n] == trace[..n];
      if NextJoined(PhaseAfter(trace).value, Tail(trace), e).Some? {
        NextOfJoined(PhaseAfter(trace[..n]).value, trace[n], e);
      }
      hide NextJoined;
    } else {
      assert (trace + [e])[..|trace|] == trace;
    }
  }

  // ---------------------------------------------------------------- states and phases

  /** The phases a state of the parser can be in. */
  predicate PhaseFits(f: Fields, ph: Phase) {
    var s := f.state;
    var trailer := Trailing in f.flags;
    && (InStart(s) ==>
          if s == Dead then ph.Closed? else if s == ResOrRespH then ph.Opened? && !trailer else ph.Idle?)
    && (InStatusLine(s) ==>
          !trailer && if s == ResStatus || s == ResLineAlmostDone then ph.Line? else ph.Opened?)
    && (s == ReqMethod || s == ReqSpacesBeforeUrl ==> !trailer && ph.Opened?)
    && (InUrl(s) || InVersion(s) ==> !trailer && ph.Line?)
    && (InName(s) ==> if s == HeaderField then ph == Name(trailer) else AfterHeader(trailer, ph))
    && (InValue(s) ==>
          if s == HeaderValueDiscardWs || s == HeaderValueDiscardWsAlmostDone || s == HeaderValueDiscardLws
          then ph == Name(trailer) else ph == Valued(trailer))
    && (InHeadersEnd(s) ==> if s == HeadersDone then ph.Headed? else AfterHeader(trailer, ph))
    && (InBody(s) ==> ph.Plain? || if s == MessageDone then ph.ChunksEnded? else ph.Headed?)
    && (InChunks(s) ==>
          if s == ChunkData then ph.InChunk? && ph.got + f.contentLength == ph.size && f.contentLength > 0
          else if s == ChunkDataAlmostDone || s == ChunkDataDone then ph.InChunk? && ph.got == ph.size > 0
          else ph.Headed? || ph.ChunkEnded?)
  }

  /** Before a header name: after the first line or the zero chunk, or after another header. */
  predicate AfterHeader(trailer: bool, ph: Phase) {
    ph == Valued(trailer) || ph == if trailer then InTrailer else Line
  }

  /** What the last callback of a phase carried. */
  predicate TailFits(ph: Phase, tail: Option<DataKind>) {
    match ph
    case Line => tail == Some(Url) || tail == Some(Status)
    case Name(_) => tail == Some(Field)
    case Valued(_) => tail == Some(Value)
    case Plain => tail == Some(Body)
    case InChunk(_, got) => tail == if got > 0 then Some(Body) else None
    case Idle => tail == None
    case Closed => tail == None
    case Opened => tail == None
    case Headed => tail == None
    case ChunkEnded => tail == None
    case InTrailer => tail == None
    case ChunksEnded => tail == None
  }

  /** The URL states are in the middle of the URL, the status state in the middle of the status. */
  predicate LineFits(f: Fields, tail: Option<DataKind>) {
    && (f.state == ResStatus ==> tail == Some(Status))
    && (InUrl(f.state) ==> tail == Some(Url))
  }

  predicate Fits(f: Fields, ph: Phase, tail: Option<DataKind>) {
    PhaseFits(f, ph) && TailFits(ph, tail) && LineFits(f, tail)
  }

  predicate FitsAfter(a: Action, ph: Phase, tail: Option<DataKind>) {
    a.Error? ||
      match a.say
      case None => Fits(a.f, ph, tail)
      case Some(e) =>
        match NextJoined(ph, tail, e)
        case None => false
        case Some(next) => Fits(a.f, next, TailOf(e))
  }

  lemma FitsStart(f: Fields, ch: char, ph: Phase, tail: Option<DataKind>)
    requires InStart(f.state) && Fits(f, ph, tail)
    ensures FitsAfter(StepStart(f, ch), ph, tail)
  {
  }

  lemma FitsStatusLine(f: Fields, ch: char, ph: Phase, tail: Option<DataKind>)
    requires InStatusLine(f.state) && Fits(f, ph, tail)
    ensures FitsAfter(StepStatusLine(f, ch), ph, tail)
  {
  }

  lemma FitsMethod(f: Fields, ch: char, ph: Phase, tail: Option<DataKind>)
    requires f.state == ReqMethod && Fits(f, ph, tail)
    ensures FitsAfter(StepMethod(f, ch), ph, tail)
  {
  }

  lemma FitsUrl(f: Fields, ch: char, ph: Phase, tail: Option<DataKind>)
    requires (f.state == ReqSpacesBeforeUrl || InUrl(f.state)) && Fits(f, ph, tail)
    ensures FitsAfter(StepUrl(f, ch), ph, tail)
  {
  }

  lemma FitsVersion(f: Fields, ch: char, ph: Phase, tail: Option<DataKind>)
    requires InVersion(f.state) && Fits(f, ph, tail)
    ensures FitsAfter(StepRequestVersion(f, ch), ph, tail)
  {
  }

  lemma FitsName(f: Fields, ch: char, ph: Phase, tail: Option<DataKind>)
    requires InName(f.state) && Fits(f, ph, tail)
    ensures FitsAfter(StepHeaderName(f, ch), ph, tail)
  {
  }

  lemma FitsValue(f: Fields, ch: char, ph: Phase, tail: Option<DataKind>)
    requires InValue(f.state) && Fits(f, ph, tail)
    ensures FitsAfter(StepHeaderValue(f, ch), ph, tail)
  {
    if f.state == HeaderValueDiscardWs || f.state == HeaderValueStart {
      FitsValueStart(f, ch, ph, tail);
      hide StepValueStart;
    } else if f.state == HeaderValue {
      FitsInValue(f, ch, ph, tail);
      hide StepInValue;
    }
  }

  lemma FitsValueStart(f: Fields, ch: char, ph: Phase, tail: Option<DataKind>)
    requires (f.state == HeaderValueDiscardWs || f.state == HeaderValueStart) && Fits(f, ph, tail)
    ensures FitsAfter(StepValueStart(f, ch), ph, tail)
  {
  }

  lemma FitsInValue(f: Fields, ch: char, ph: Phase, tail: Option<DataKind>)
    requires f.state == HeaderValue && Fits(f, ph, tail)
    ensures FitsAfter(StepInValue(f, ch), ph, tail)
  {
  }

  lemma FitsHeadersEnd(f: Fields, ch: char, reply: Reply, ph: Phase, tail: Option<DataKind>)
    requires InHeadersEnd(f.state) && Fits(f, ph, tail)
    ensures FitsAfter(StepHeadersEnd(f, ch, reply), ph, tail)
  {
    hide Fits, FitsAfter, StepHeadersEnd;
    if f.state == HeadersDone {
      FitsHeadersDone(f, ch, reply, ph, tail);
    } else {
      FitsBlankLine(f, ch, reply, ph, tail);
    }
  }

  lemma FitsBlankLine(f: Fields, ch: char, reply: Reply, ph: Phase, tail: Option<DataKind>)
    requires f.state == HeadersAlmostDone && Fits(f, ph, tail)
    ensures FitsAfter(StepHeadersEnd(f, ch, reply), ph, tail)
  {
  }

  lemma FitsHeadersDone(f: Fields, ch: char, reply: Reply, ph: Phase, tail: Option<DataKind>)
    requires f.state == HeadersDone && Fits(f, ph, tail)
    ensures FitsAfter(StepHeadersEnd(f, ch, reply), ph, tail)
  {
  }

  lemma FitsBody(f: Fields, ch: char, ph: Phase, tail: Option<DataKind>)
    requires InBody(f.state) && Fits(f, ph, tail)
    ensures FitsAfter(StepBody(f, ch), ph, tail)
  {
  }

  lemma FitsChunk(f: Fields, ch: char, ph: Phase, tail: Option<DataKind>)
    requires InChunks(f.state) && Fits(f, ph, tail)
    ensures FitsAfter(StepChunk(f, ch), ph, tail)
  {
    hide FitsAfter, StepChunk, Fits;
    if f.state <= ChunkSizeAlmostDone {
      FitsSize(f, ch, ph, tail);
    } else {
      FitsChunkData(f, ch, ph, tail);
    }
  }

  lemma FitsSize(f: Fields, ch: char, ph: Phase, tail: Option<DataKind>)
    requires ChunkSizeStart <= f.state <= ChunkSizeAlmostDone && Fits(f, ph, tail)
    ensures FitsAfter(StepChunk(f, ch), ph, tail)
  {
    hide Unhex;
  }

  lemma FitsChunkData(f: Fields, ch: char, ph: Phase, tail: Option<DataKind>)
    requires ChunkData <= f.state <= ChunkDataDone && Fits(f, ph, tail)
    ensures FitsAfter(StepChunk(f, ch), ph, tail)
  {
    hide Unhex;
  }

  // ---------------------------------------------------------------- numbers

  /** The largest length a Content-Length header or a chunk size can leave behind. */
  const MAX_LENGTH: nat := 18446744073709551609

  /** The counters in each state. `counted` tells whether the current byte, if it is a
      header byte, is already counted. */
  predicate NumbersFit(cfg: Settings, f: Fields, counted: bool) {
    var s := f.state;
    && f.nread <= cfg.limit
    && f.statusCode <= 999
    && (f.contentLength == NO_LENGTH || f.contentLength <= MAX_LENGTH)
    && (InChunks(s) ==> Chunked in f.flags)
    && (s == ChunkSizeStart ==> f.nread == if counted then 1 else 0)
    && (ChunkSize <= s <= ChunkSizeAlmostDone ==> f.contentLength <= MAX_LENGTH)
    && (s == BodyIdentity || s == ChunkData ==> 0 < f.contentLength <= MAX_LENGTH)
    && (s == ChunkDataAlmostDone ==> f.contentLength == 0)
  }

  lemma BodyNumbers(cfg: Settings, f: Fields)
    requires NumbersFit(cfg, f, true) && (f.state == BodyIdentity || f.state == ChunkData)
    ensures 0 < f.contentLength < NO_LENGTH && (f.state == ChunkData ==> Chunked in f.flags)
  {
  }

  predicate NumbersAfter(cfg: Settings, a: Action) {
    a.Error? || NumbersFit(cfg, a.f, a.Again?)
  }

  lemma NumbersStep(cfg: Settings, p: Parser, ch: char)
    requires NumbersFit(cfg, p.f, true)
    ensures NumbersAfter(cfg, Step(cfg, p, ch))
  {
    var s := p.f.state;
    if InStart(s) { NumbersStart(cfg, p.f, ch); }
    else if InStatusLine(s) { NumbersStatusLine(cfg, p.f, ch); }
    else if s == ReqMethod { NumbersMethod(cfg, p.f, ch); }
    else if s == ReqSpacesBeforeUrl || InUrl(s) { NumbersUrl(cfg, p.f, ch); }
    else if InVersion(s) { NumbersVersion(cfg, p.f, ch); }
    else if InName(s) { NumbersName(cfg, p.f, ch); }
    else if InValue(s) { NumbersValue(cfg, p.f, ch); }
    else if InHeadersEnd(s) { NumbersHeadersEnd(cfg, p.f, ch, cfg.onHeadersComplete(CallbackView(p.f), p.trace)); }
    else if InBody(s) { NumbersBody(cfg, p.f, ch); }
    else { NumbersChunk(cfg, p.f, ch); }
  }

  lemma NumbersStart(cfg: Settings, f: Fields, ch: char)
    requires NumbersFit(cfg, f, true)
    requires InStart(f.state)
    ensures NumbersAfter(cfg, StepStart(f, ch))
  {
  }

  lemma NumbersStatusLine(cfg: Settings, f: Fields, ch: char)
    requires NumbersFit(cfg, f, true)
    requires InStatusLine(f.state)
    ensures NumbersAfter(cfg, StepStatusLine(f, ch))
  {
  }

  lemma NumbersMethod(cfg: Settings, f: Fields, ch: char)
    requires NumbersFit(cfg, f, true)
    requires f.state == ReqMethod
    ensures NumbersAfter(cfg, StepMethod(f, ch))
  {
  }

  lemma NumbersUrl(cfg: Settings, f: Fields, ch: char)
    requires NumbersFit(cfg, f, true)
    requires f.state == ReqSpacesBeforeUrl || InUrl(f.state)
    ensures NumbersAfter(cfg, StepUrl(f, ch))
  {
  }

  lemma NumbersVersion(cfg: Settings, f: Fields, ch: char)
    requires NumbersFit(cfg, f, true)
    requires InVersion(f.state)
    ensures NumbersAfter(cfg, StepRequestVersion(f, ch))
  {
  }

  lemma NumbersName(cfg: Settings, f: Fields, ch: char)
    requires NumbersFit(cfg, f, true)
    requires InName(f.state)
    ensures NumbersAfter(cfg, StepHeaderName(f, ch))
  {
  }

  lemma NumbersValue(cfg: Settings, f: Fields, ch: char)
    requires NumbersFit(cfg, f, true)
    requires InValue(f.state)
    ensures NumbersAfter(cfg, StepHeaderValue(f, ch))
  {
  }

  lemma NumbersHeadersEnd(cfg: Settings, f: Fields, ch: char, reply: Reply)
    requires NumbersFit(cfg, f, true)
    requires InHeadersEnd(f.state)
    ensures NumbersAfter(cfg, StepHeadersEnd(f, ch, reply))
  {
  }

  lemma NumbersBody(cfg: Settings, f: Fields, ch: char)
    requires NumbersFit(cfg, f, true)
    requires InBody(f.state)
    ensures NumbersAfter(cfg, StepBody(f, ch))
  {
  }

  lemma NumbersChunk(cfg: Settings, f: Fields, ch: char)
    requires NumbersFit(cfg, f, true)
    requires InChunks(f.state)
    ensures NumbersAfter(cfg, StepChunk(f, ch))
  {
  }

  // ---------------------------------------------------------------- incremental matchers

  predicate NameIndexFits(hs: HeaderState, index: nat) {
    match hs
    case General => index <= 16
    case C => index == 0
    case CO => index == 1
    case CON => index == 2
    case MatchingConnection => 3 <= index < 9
    case MatchingProxyConnection => index < 15
    case MatchingContentLength => 3 <= index < 13
    case MatchingTransferEncoding => index < 16
    case MatchingUpgrade => index < 6
    case ConnectionName => index == 9 || index == 15
    case ContentLengthName => index == 13
    case TransferEncodingName => index == 16
    case UpgradeName => index == 6
    case _ => false
  }

  predicate ValueIndexFits(hs: HeaderState, index: nat) {
    match hs
    case General => index <= 16
    case ContentLengthNum => index <= 16
    case ContentLengthWs => index <= 16
    case MatchingChunked => index < 6
    case TokenStart => index == 0
    case MatchingKeepAlive => index < 9
    case MatchingClose => index < 4
    case MatchingConnectionUpgrade => index < 6
    case Token => index <= 16
    case ChunkedValue => index <= 16
    case KeepAliveValue => index <= 16
    case CloseValue => index <= 16
    case UpgradeValue => index <= 16
    case _ => false
  }

  /** Which header states go with which states, and how far the matchers can have read. */
  predicate MatchersFit(f: Fields) {
    var s := f.state;
    && (s == ReqMethod ==> 1 <= f.index <= |MethodString(f.meth)|)
    && (s == HeaderField || HeaderValueDiscardWs <= s <= HeaderValueDiscardLws
        ==> NameIndexFits(f.headerState, f.index))
    && (HeaderValueStart <= s <= HeaderAlmostDone ==> ValueIndexFits(f.headerState, f.index))
    && f.index <= 16
  }

  predicate MatchersAfter(a: Action) { a.Error? || MatchersFit(a.f) }

  lemma MatchersMethod(f: Fields, ch: char)
    requires MatchersFit(f) && f.state == ReqMethod
    ensures MatchersAfter(StepMethod(f, ch))
  {
  }

  lemma MatchersName(f: Fields, ch: char)
    requires MatchersFit(f) && InName(f.state)
    ensures MatchersAfter(StepHeaderName(f, ch))
  {
  }

  lemma MatchersValueStep(v: ValueState, ch: char)
    requires ValueIndexFits(v.hs, v.index)
    ensures var o := ValueStep(v, ch); o.Fine? ==> ValueIndexFits(o.v.hs, o.v.index)
  {
  }

  lemma MatchersInValue(f: Fields, ch: char)
    requires MatchersFit(f) && f.state == HeaderValue
    ensures MatchersAfter(StepInValue(f, ch))
  {
    MatchersValueStep(ValueOf(f), ch);
  }

  lemma MatchersValueStart(f: Fields, ch: char)
    requires MatchersFit(f) && (f.state == HeaderValueDiscardWs || f.state == HeaderValueStart)
    ensures MatchersAfter(StepValueStart(f, ch))
  {
  }

  lemma MatchersValue(f: Fields, ch: char)
    requires MatchersFit(f) && InValue(f.state)
    ensures MatchersAfter(StepHeaderValue(f, ch))
  {
    if f.state == HeaderValue {
      MatchersInValue(f, ch);
    } else if f.state == HeaderValueDiscardWs || f.state == HeaderValueStart {
      MatchersValueStart(f, ch);
    }
  }

  lemma MatchersStart(f: Fields, ch: char)
    requires MatchersFit(f) && InStart(f.state)
    ensures MatchersAfter(StepStart(f, ch))
  {
  }

  lemma MatchersStatusLine(f: Fields, ch: char)
    requires MatchersFit(f)
    requires InStatusLine(f.state)
    ensures MatchersAfter(StepStatusLine(f, ch))
  {
  }

  lemma MatchersUrl(f: Fields, ch: char)
    requires MatchersFit(f)
    requires f.state == ReqSpacesBeforeUrl || InUrl(f.state)
    ensures MatchersAfter(StepUrl(f, ch))
  {
  }

  lemma MatchersVersion(f: Fields, ch: char)
    requires MatchersFit(f)
    requires InVersion(f.state)
    ensures MatchersAfter(StepRequestVersion(f, ch))
  {
  }

  lemma MatchersHeadersEnd(f: Fields, ch: char, reply: Reply)
    requires MatchersFit(f)
    requires InHeadersEnd(f.state)
    ensures MatchersAfter(StepHeadersEnd(f, ch, reply))
  {
  }

  lemma MatchersBody(f: Fields, ch: char)
    requires MatchersFit(f)
    requires InBody(f.state)
    ensures MatchersAfter(StepBody(f, ch))
  {
  }

  lemma MatchersChunk(f: Fields, ch: char)
    requires MatchersFit(f)
    requires InChunks(f.state)
    ensures MatchersAfter(StepChunk(f, ch))
  {
  }

  lemma MatchersStep(cfg: Settings, p: Parser, ch: char)
    requires MatchersFit(p.f)
    ensures MatchersAfter(Step(cfg, p, ch))
  {
    var s := p.f.state;
    if InStart(s) { MatchersStart(p.f, ch); }
    else if InStatusLine(s) { MatchersStatusLine(p.f, ch); }
    else if s == ReqMethod { MatchersMethod(p.f, ch); }
    else if s == ReqSpacesBeforeUrl || InUrl(s) { MatchersUrl(p.f, ch); }
    else if InVersion(s) { MatchersVersion(p.f, ch); }
    else if InName(s) { MatchersName(p.f, ch); }
    else if InValue(s) { MatchersValue(p.f, ch); }
    else if InHeadersEnd(s) { MatchersHeadersEnd(p.f, ch, cfg.onHeadersComplete(CallbackView(p.f), p.trace)); }
    else if InBody(s) { MatchersBody(p.f, ch); }
    else { MatchersChunk(p.f, ch); }
  }

  lemma FitsStep(cfg: Settings, p: Parser, ch: char, ph: Phase, tail: Option<DataKind>)
    requires Fits(p.f, ph, tail)
    ensures FitsAfter(Step(cfg, p, ch), ph, tail)
  {
    var s := p.f.state;
    if InStart(s) { FitsStart(p.f, ch, ph, tail); }
    else if InStatusLine(s) { FitsStatusLine(p.f, ch, ph, tail); }
    else if s == ReqMethod { FitsMethod(p.f, ch, ph, tail); }
    else if s == ReqSpacesBeforeUrl || InUrl(s) { FitsUrl(p.f, ch, ph, tail); }
    else if InVersion(s) { FitsVersion(p.f, ch, ph, tail); }
    else if InName(s) { FitsName(p.f, ch, ph, tail); }
    else if InValue(s) { FitsValue(p.f, ch, ph, tail); }
    else if InHeadersEnd(s) { FitsHeadersEnd(p.f, ch, cfg.onHeadersComplete(CallbackView(p.f), p.trace), ph, tail); }
    else if InBody(s) { FitsBody(p.f, ch, ph, tail); }
    else { FitsChunk(p.f, ch, ph, tail); }
  }

  // ---------------------------------------------------------------- the invariant

  predicate GrammarHolds(p: Parser) {
    match PhaseAfter(p.trace)
    case None => false
    case Some(ph) => Fits(p.f, ph, Tail(p.trace))
  }

  /** What holds in every reachable state. `counted` is as in `NumbersFit`. */
  predicate Inv(cfg: Settings, p: Parser, counted: bool) {
    NumbersFit(cfg, p.f, counted) && MatchersFit(p.f) && GrammarHolds(p)
  }

  /** A reachable state between two bytes. */
  predicate Reachable(cfg: Settings, p: Parser) {
    Inv(cfg, p, false)
  }

  lemma GrammarStep(cfg: Settings, p: Parser, ch: char)
    requires GrammarHolds(p)
    ensures var a := Step(cfg, p, ch); a.Error? || GrammarHolds(After(p, a))
  {
    var ph, tail := PhaseAfter(p.trace).value, Tail(p.trace);
    FitsStep(cfg, p, ch, ph, tail);
    var a := Step(cfg, p, ch);
    if !a.Error? && a.say.Some? {
      PhaseEmit(p.trace, a.say.value);
    }
  }

  lemma InvStep(cfg: Settings, p: Parser, ch: char)
    requires Inv(cfg, p, true)
    ensures var a := Step(cfg, p, ch); a.Error? || Inv(cfg, After(p, a), a.Again?)
  {
    NumbersStep(cfg, p, ch);
    MatchersStep(cfg, p, ch);
    GrammarStep(cfg, p, ch);
  }

  predicate InvResult(cfg: Settings, r: Result) {
    r.Failed? || Reachable(cfg, r.p)
  }

  lemma {:induction false} InvExec(cfg: Settings, p: Parser, ch: char, at: nat)
    requires Inv(cfg, p, true)
    ensures InvResult(cfg, Exec(cfg, p, ch, at))
    decreases Rank(p.f.state)
  {
    InvStep(cfg, p, ch);
    var a := Step(cfg, p, ch);
    if a.Again? {
      InvExec(cfg, After(p, a), ch, at);
    }
  }

  lemma InvCounted(cfg: Settings, p: Parser)
    requires Reachable(cfg, p)
    requires ParsingHeader(p.f.state) ==> p.f.nread < cfg.limit
    ensures Inv(cfg, Counted(p), true)
  {
  }

  lemma InvByte(cfg: Settings, p: Parser, ch: char, at: nat)
    requires Reachable(cfg, p)
    ensures InvResult(cfg, Byte(cfg, p, ch, at))
  {
    if !ParsingHeader(p.f.state) || p.f.nread < cfg.limit {
      InvCounted(cfg, p);
      InvExec(cfg, Counted(p), ch, at);
    }
  }

  /** Every run from a reachable state stays in reachable states: the counters are right,
      the matchers are where their states say, and the callbacks obey the grammar. */
  lemma {:induction false} InvRun(cfg: Settings, p: Parser, data: string)
    requires Reachable(cfg, p)
    ensures InvResult(cfg, Run(cfg, p, data))
  {
    if data != [] {
      var n := |data| - 1;
      InvRun(cfg, p, data[..n]);
      var r := Run(cfg, p, data[..n]);
      if r.Running? {
        InvByte(cfg, r.p, data[n], n);
      }
    }
  }

  /** A connection may end between messages, or in a body that only its end delimits. */
  lemma EndObeys(cfg: Settings, p: Parser)
    requires Reachable(cfg, p) && EndOfInput(p).Running?
    ensures var q := EndOfInput(p).p;
            PhaseAfter(q.trace) == Some(Idle) || PhaseAfter(q.trace) == Some(Closed)
  {
    var ph, tail := PhaseAfter(p.trace).value, Tail(p.trace);
    assert Fits(p.f, ph, tail);
    if p.f.state == BodyIdentityEof {
      PhaseEmit(p.trace, MessageComplete(p.f.ShouldKeepAlive()));
    }
  }

  /** The end of the connection is accepted exactly between messages and in a body that only it ends. */
  lemma EndAccepted(cfg: Settings, p: Parser)
    requires Reachable(cfg, p)
    ensures EndOfInput(p).Running? <==>
            PhaseAfter(p.trace) == Some(Idle) || PhaseAfter(p.trace) == Some(Closed) || p.f.state == BodyIdentityEof
    ensures !EndOfInput(p).Running? ==> EndOfInput(p) == Failed(InvalidEofState, 0)
  {
    var ph, tail := PhaseAfter(p.trace).value, Tail(p.trace);
    assert Fits(p.f, ph, tail);
  }

  lemma InitiallyReachable(cfg: Settings, kind: ParserType)
    ensures Reachable(cfg, Parser(InitialFields(kind), []))
  {
  }
}
