/** `http_parser` and `http_parser_execute` in their own form: an object whose fields a
    loop over the buffer updates, with marks, block skips and re-execution of a byte.
    `Execute` is proved to do what the byte machine of `HttpStep` does.
 */
module HttpParser {
  import opened Options
  import opened HttpTypes
  import opened HttpStep
  import opened HttpInvariant
  import opened HttpRun
  import opened HttpAgree
  import opened HttpMarks

  /** What the code after the `switch` does with the current byte. */
  datatype Control = Advance | Reexecute | Leave | Fail

  class HttpParser {
    var kind: ParserType
    var flags: set<Flag>
    var state: State
    var headerState: HeaderState
    var index: nat
    var nread: nat
    var contentLength: nat
    var httpMajor: nat
    var httpMinor: nat
    var statusCode: nat
    var meth: Method
    var upgrade: bool
    var errno: Errno
    /** The callbacks made so far, as the client keeps them. */
    var calls: seq<Event>

    function Snapshot(): Fields
      reads this
    {
      Fields(kind, flags, state, headerState, index, nread, contentLength, httpMajor, httpMinor, statusCode, meth,
          upgrade)
    }

    /** The fields, and the callbacks made so far with adjacent data joined. */
    ghost function View(): Parser
      reads this
    {
      Parser(Snapshot(), Joined(calls))
    }

    /** The same inside a buffer, with the callback due at `p` already made. */
    ghost function ViewAt(m: Marks, data: string, p: nat): Parser
      reads this
    {
      Parser(Snapshot(), TraceOf(calls, m, data, p))
    }

    /** The state after byte `p` was executed is what action `a` on `before` demands. */
    ghost predicate Did(a: Action, before: Parser, ctl: Control, m: Marks, data: string, p: nat)
      reads this
    {
      match a
      case Error(e) => ctl == Fail && errno == e && e != OK
      case Break(_, _) => ctl == Advance && errno == OK && MarksFit(state, m, p + 1)
          && ViewAt(m, data, p + 1) == After(before, a)
      case Again(_, _) => ctl == Reexecute && errno == OK && MarksFit(state, m, p)
          && ViewAt(m, data, p) == After(before, a)
      case Exit(_, _) => ctl == Leave && errno == OK && m == NO_MARKS && View() == After(before, a)
    }

    /** The same for states that set no mark. */
    ghost predicate DidQuietly(a: Action, before: Parser, ctl: Control)
      reads this
    {
      if a.Error? then ctl == Fail && errno == a.e != OK && Joined(calls) == before.trace
      else
        && ctl == (if a.Break? then Advance else if a.Again? then Reexecute else Leave)
        && errno == OK && MarksFit(state, NO_MARKS, 0)
        && Snapshot() == a.f && Joined(calls) == Speak(before.trace, a.say)
    }

    /** The callbacks made so far obey the grammar. */
    ghost predicate Told()
      reads this
    {
      PhaseAfter(Joined(calls)).Some?
    }

    /** No callback was made since `before`, or all that were due. */
    ghost predicate Kept(before: seq<Event>, ctl: Control, m: Marks)
      reads this
    {
      Joined(calls) == before || (ctl != Fail && m == NO_MARKS)
    }

    /** http_parser_init */
    constructor (kind: ParserType)
      ensures errno == OK && calls == [] && Told() && View() == Parser(InitialFields(kind), [])
    {
      this.kind := kind;
      flags := {};
      state := match kind case Request => StartReq case Response => StartRes case Both => StartReqOrRes;
      headerState := General;
      index, nread, contentLength, httpMajor, httpMinor, statusCode := 0, 0, 0, 0, 0, 0;
      meth := Delete;
      upgrade := false;
      errno := OK;
      calls := [];
    }

    /** http_message_needs_eof */
    method MessageNeedsEof() returns (r: bool)
      ensures r == Snapshot().MessageNeedsEof()
    {
      if kind == Request {
        return false;
      }
      if statusCode / 100 == 1 || statusCode == 204 || statusCode == 304 || SkipBody in flags {
        return false;
      }
      if Chunked in flags || contentLength != NO_LENGTH {
        return false;
      }
      return true;
    }

    /** http_should_keep_alive */
    method ShouldKeepAlive() returns (r: bool)
      ensures r == Snapshot().ShouldKeepAlive()
    {
      if httpMajor > 0 && httpMinor > 0 {
        if Close in flags {
          return false;
        }
      } else {
        if KeepAlive !in flags {
          return false;
        }
      }
      var needsEof := MessageNeedsEof();
      return !needsEof;
    }

    method Call(e: Event)
      modifies this`calls
      ensures calls == old(calls) + [e] && Joined(calls) == Emit(old(Joined(calls)), e)
    {
      JoinedSnoc(calls, e);
      calls := calls + [e];
    }

    /** Makes the data callback that is due at `p`. */
    method CallDue(m: Marks, data: string, p: nat)
      requires Due(m, data, p).Some?
      modifies this`calls
      ensures calls == old(calls) + [Due(m, data, p).value]
      ensures Joined(calls) == old(TraceOf(calls, m, data, p))
    {
      DueMade(calls, m, data, p);
      calls := calls + [Due(m, data, p).value];
    }

    /** UPDATE_STATE(NEW_MESSAGE()) and the message-complete callback */
    method FinishMessage()
      modifies this`state, this`calls
      ensures Snapshot() == Finished(old(Snapshot()))
      ensures calls == old(calls) + [Farewell(old(Snapshot())).value]
      ensures Joined(calls) == Emit(old(Joined(calls)), Farewell(old(Snapshot())).value)
    {
      var keepAlive := ShouldKeepAlive();
      if !keepAlive {
        state := Dead;
      } else if kind == Request {
        state := StartReq;
      } else {
        state := StartRes;
      }
      Call(MessageComplete(keepAlive));
    }

    // -------------------------------------------------------------- states that look at one byte

    /** The states between messages and at the start of a line set no mark. */
    static lemma NoMarksFit()
      ensures forall s: State :: InStart(s) || s == ResH || s == ResHT || s == ReqMethod ==> MarksFit(s, NO_MARKS, 0)
    {
    }

    method DoStart(data: string, p: nat) returns (ctl: Control)
      requires p < |data| && errno == OK && InStart(state)
      modifies this
      ensures DidQuietly(StepStart(old(Snapshot()), data[p]), old(View()), ctl)
    {
      hide FirstMethod, Emit, Joined, MarksFit;
      NoMarksFit();
      var ch := data[p];
      if state == Dead {
        if ch == CR || ch == LF { return Advance; }
        errno := ClosedConnection;
        return Fail;
      }
      if state == StartReqOrRes {
        if ch == CR || ch == LF { return Advance; }
        flags := {};
        contentLength := NO_LENGTH;
        if ch == 'H' {
          state := ResOrRespH;
          Call(MessageBegin);
          return Advance;
        }
        kind := Request;
        state := StartReq;
        return Reexecute;
      }
      if state == ResOrRespH {
        if ch == 'T' {
          kind := Response;
          state := ResHT;
        } else {
          if ch != 'E' {
            errno := InvalidConstant;
            return Fail;
          }
          kind := Request;
          meth := Head;
          index := 2;
          state := ReqMethod;
        }
        return Advance;
      }
      ctl := DoStartMessage(data, p);
    }

    /** The first byte of a response or of a request, where it is known which one comes. */
    method DoStartMessage(data: string, p: nat) returns (ctl: Control)
      requires p < |data| && errno == OK && (state == StartRes || state == StartReq)
      modifies this
      ensures DidQuietly(StepStart(old(Snapshot()), data[p]), old(View()), ctl)
    {
      hide FirstMethod, Emit, Joined, MarksFit;
      NoMarksFit();
      var ch := data[p];
      if state == StartRes {
        if ch == CR || ch == LF { return Advance; }
        flags := {};
        contentLength := NO_LENGTH;
        if ch == 'H' {
          state := ResH;
        } else {
          errno := InvalidConstant;
          return Fail;
        }
        Call(MessageBegin);
        return Advance;
      }
      // StartReq
      if ch == CR || ch == LF { return Advance; }
      flags := {};
      contentLength := NO_LENGTH;
      if !IsAlpha(ch) || FirstMethod(ch) == None {
        errno := InvalidMethod;
        return Fail;
      }
      meth := FirstMethod(ch).value;
      index := 1;
      state := ReqMethod;
      Call(MessageBegin);
      return Advance;
    }

    method DoStatusVersion(data: string, p: nat) returns (ctl: Control)
      requires p < |data| && errno == OK && ResH <= state <= ResHttpEnd
      modifies this`state, this`httpMajor, this`httpMinor, this`errno
      ensures DidQuietly(StepStatusLine(old(Snapshot()), data[p]), old(View()), ctl)
    {
      hide Emit, Joined;
      var ch := data[p];
      if state == ResH {
        if ch != 'T' {
          errno := Strict;
          return Fail;
        }
        state := ResHT;
      } else if state == ResHT {
        if ch != 'T' {
          errno := Strict;
          return Fail;
        }
        state := ResHTT;
      } else if state == ResHTT {
        if ch != 'P' {
          errno := Strict;
          return Fail;
        }
        state := ResHTTP;
      } else if state == ResHTTP {
        if ch != '/' {
          errno := Strict;
          return Fail;
        }
        state := ResHttpMajor;
      } else if state == ResHttpMajor {
        if !IsNum(ch) {
          errno := InvalidVersion;
          return Fail;
        }
        httpMajor := Digit(ch);
        state := ResHttpDot;
      } else if state == ResHttpDot {
        if ch != '.' {
          errno := InvalidVersion;
          return Fail;
        }
        state := ResHttpMinor;
      } else if state == ResHttpMinor {
        if !IsNum(ch) {
          errno := InvalidVersion;
          return Fail;
        }
        httpMinor := Digit(ch);
        state := ResHttpEnd;
      } else {
        if ch != ' ' {
          errno := InvalidVersion;
          return Fail;
        }
        state := ResFirstStatusCode;
      }
      return Advance;
    }

    method DoStatusCode(data: string, p: nat) returns (ctl: Control)
      requires p < |data| && errno == OK
      requires state == ResFirstStatusCode || state == ResStatusCode || state == ResLineAlmostDone
      modifies this`state, this`statusCode, this`errno
      ensures DidQuietly(StepStatusLine(old(Snapshot()), data[p]), old(View()), ctl)
    {
      hide Emit, Joined;
      var ch := data[p];
      if state == ResFirstStatusCode {
        if !IsNum(ch) {
          if ch == ' ' { return Advance; }
          errno := InvalidStatus;
          return Fail;
        }
        statusCode := Digit(ch);
        state := ResStatusCode;
        return Advance;
      }
      if state == ResStatusCode {
        if !IsNum(ch) {
          if ch == ' ' {
            state := ResStatusStart;
            return Advance;
          }
          if ch == CR || ch == LF {
            state := ResStatusStart;
            return Reexecute;
          }
          errno := InvalidStatus;
          return Fail;
        }
        statusCode := statusCode * 10;
        statusCode := statusCode + Digit(ch);
        if statusCode > 999 {
          errno := InvalidStatus;
          return Fail;
        }
        return Advance;
      }
      if ch != LF {
        errno := Strict;
        return Fail;
      }
      state := HeaderFieldStart;
      return Advance;
    }

    method DoStatusStart(data: string, p: nat) returns (ctl: Control, m': Marks)
      requires p < |data| && errno == OK && state == ResStatusStart
      modifies this`state, this`index
      ensures Did(StepStatusLine(old(Snapshot()), data[p]), old(View()), ctl, m', data, p)
      ensures Kept(old(Joined(calls)), ctl, m')
    {
      hide Emit, Joined;
      var ch := data[p];
      m' := NO_MARKS.(status := Some(p));
      DueBegins(calls, data, p, Status);
      assert data[p..p] == "";
      state := ResStatus;
      index := 0;
      if ch == CR || ch == LF { return Reexecute, m'; }
      return Advance, m';
    }

    method DoStatus(data: string, p: nat, m: Marks) returns (ctl: Control, m': Marks)
      requires p < |data| && errno == OK && state == ResStatus && MarksFit(state, m, p)
      modifies this`state, this`calls
      ensures Did(StepStatusLine(old(Snapshot()), data[p]), old(ViewAt(m, data, p)), ctl, m', data, p)
      ensures Kept(old(Joined(calls)), ctl, m')
    {
      hide Emit, Joined, Due, TraceOf;
      var ch := data[p];
      DueInState(state, m, data, p);
      DueInState(state, m, data, p + 1);
      if ch == CR {
        state := ResLineAlmostDone;
        CallDue(m, data, p);
        NothingDue(calls, data, p + 1);
        return Advance, NO_MARKS;
      }
      if ch == LF {
        state := HeaderFieldStart;
        CallDue(m, data, p);
        NothingDue(calls, data, p + 1);
        return Advance, NO_MARKS;
      }
      DueGrows(calls, m, data, p);
      return Advance, m;
    }

    method DoMethod(data: string, p: nat) returns (ctl: Control)
      requires p < |data| && errno == OK && state == ReqMethod
      modifies this`state, this`meth, this`index, this`errno
      ensures DidQuietly(StepMethod(old(Snapshot()), data[p]), old(View()), ctl)
    {
      hide Emit, Joined, OtherMethod, MethodString;
      var ch := data[p];
      if ch == '\0' {
        errno := InvalidMethod;
        return Fail;
      }
      var matcher := MethodString(meth);
      if ch == ' ' && index == |matcher| {
        state := ReqSpacesBeforeUrl;
      } else if index < |matcher| && ch == matcher[index] {
        // nothing to do
      } else if ('A' <= ch <= 'Z') || ch == '-' {
        var other := OtherMethod(meth, index, ch);
        if other == None {
          errno := InvalidMethod;
          return Fail;
        }
        meth := other.value;
      } else {
        errno := InvalidMethod;
        return Fail;
      }
      index := index + 1;
      return Advance;
    }

    method DoUrlStart(data: string, p: nat) returns (ctl: Control, m': Marks)
      requires p < |data| && errno == OK && state == ReqSpacesBeforeUrl
      modifies this`state, this`errno
      ensures Did(StepUrl(old(Snapshot()), data[p]), old(View()), ctl, m', data, p)
      ensures Kept(old(Joined(calls)), ctl, m')
    {
      hide Emit, Joined;
      var ch := data[p];
      if ch == ' ' { return Advance, NO_MARKS; }
      m' := NO_MARKS.(url := Some(p));
      DueBegins(calls, data, p, Url);
      if meth == Connect {
        state := ReqServerStart;
      }
      state := UrlChar(state, ch);
      if state == Dead {
        errno := InvalidUrl;
        return Fail, m';
      }
      return Advance, m';
    }

    method DoUrl(data: string, p: nat, m: Marks) returns (ctl: Control, m': Marks)
      requires p < |data| && errno == OK && InUrl(state) && MarksFit(state, m, p)
      modifies this`state, this`httpMajor, this`httpMinor, this`calls, this`errno
      ensures Did(StepUrl(old(Snapshot()), data[p]), old(ViewAt(m, data, p)), ctl, m', data, p)
      ensures Kept(old(Joined(calls)), ctl, m')
    {
      hide Emit, Joined, Due, TraceOf, UrlChar;
      var ch := data[p];
      DueInState(state, m, data, p);
      if state <= ReqServerStart {
        ctl, m' := DoUrlChar(data, p, m);
      } else if ch == ' ' {
        state := ReqHttpStart;
        CallDue(m, data, p);
        NothingDue(calls, data, p + 1);
        return Advance, NO_MARKS;
      } else if ch == CR || ch == LF {
        httpMajor := 0;
        httpMinor := 9;
        state := if ch == CR then ReqLineAlmostDone else HeaderFieldStart;
        CallDue(m, data, p);
        NothingDue(calls, data, p + 1);
        return Advance, NO_MARKS;
      } else {
        ctl, m' := DoUrlChar(data, p, m);
      }
    }

    /** A byte that belongs to the URL, or is no good; `UrlChar` refuses white space. */
    method DoUrlChar(data: string, p: nat, m: Marks) returns (ctl: Control, m': Marks)
      requires p < |data| && errno == OK && InUrl(state) && MarksFit(state, m, p)
      requires UrlEndableState(state) ==> data[p] != ' ' && data[p] != CR && data[p] != LF
      modifies this`state, this`errno
      ensures Did(StepUrl(old(Snapshot()), data[p]), old(ViewAt(m, data, p)), ctl, m', data, p)
      ensures Kept(old(Joined(calls)), ctl, m')
    {
      hide Emit, Joined, Due, TraceOf, UrlChar;
      var ch := data[p];
      DueInState(state, m, data, p);
      UrlCharStays(state, ch);
      state := UrlChar(state, ch);
      if state == Dead {
        errno := InvalidUrl;
        return Fail, m;
      }
      DueInState(state, m, data, p + 1);
      DueGrows(calls, m, data, p);
      return Advance, m;
    }

    method DoVersion(data: string, p: nat) returns (ctl: Control)
      requires p < |data| && errno == OK && InVersion(state)
      modifies this`state, this`httpMajor, this`httpMinor, this`errno
      ensures DidQuietly(StepRequestVersion(old(Snapshot()), data[p]), old(View()), ctl)
    {
      hide Emit, Joined;
      var ch := data[p];
      if state == ReqHttpStart {
        if ch == ' ' { return Advance; }
        if ch == 'H' {
          state := ReqHttpH;
          return Advance;
        }
        if ch == 'I' && meth == Source {
          state := ReqHttpI;
          return Advance;
        }
        errno := InvalidConstant;
        return Fail;
      }
      if state == ReqHttpH {
        if ch != 'T' {
          errno := Strict;
          return Fail;
        }
        state := ReqHttpHT;
      } else if state == ReqHttpHT {
        if ch != 'T' {
          errno := Strict;
          return Fail;
        }
        state := ReqHttpHTT;
      } else if state == ReqHttpHTT {
        if ch != 'P' {
          errno := Strict;
          return Fail;
        }
        state := ReqHttpHTTP;
      } else if state == ReqHttpI {
        if ch != 'C' {
          errno := Strict;
          return Fail;
        }
        state := ReqHttpIC;
      } else if state == ReqHttpIC {
        if ch != 'E' {
          errno := Strict;
          return Fail;
        }
        state := ReqHttpHTTP;
      } else if state == ReqHttpHTTP {
        if ch != '/' {
          errno := Strict;
          return Fail;
        }
        state := ReqHttpMajor;
      } else if state == ReqHttpMajor {
        if !IsNum(ch) {
          errno := InvalidVersion;
          return Fail;
        }
        httpMajor := Digit(ch);
        state := ReqHttpDot;
      } else if state == ReqHttpDot {
        if ch != '.' {
          errno := InvalidVersion;
          return Fail;
        }
        state := ReqHttpMinor;
      } else if state == ReqHttpMinor {
        if !IsNum(ch) {
          errno := InvalidVersion;
          return Fail;
        }
        httpMinor := Digit(ch);
        state := ReqHttpEnd;
      } else if state == ReqHttpEnd {
        if ch == CR {
          state := ReqLineAlmostDone;
          return Advance;
        }
        if ch == LF {
          state := HeaderFieldStart;
          return Advance;
        }
        errno := InvalidVersion;
        return Fail;
      } else {
        if ch != LF {
          errno := LfExpected;
          return Fail;
        }
        state := HeaderFieldStart;
      }
      return Advance;
    }

    method DoHeaderFieldStart(data: string, p: nat) returns (ctl: Control, m': Marks)
      requires p < |data| && errno == OK && state == HeaderFieldStart
      modifies this`state, this`headerState, this`index, this`errno
      ensures Did(StepHeaderName(old(Snapshot()), data[p]), old(View()), ctl, m', data, p)
      ensures Kept(old(Joined(calls)), ctl, m')
    {
      hide Emit, Joined, TokenChar;
      var ch := data[p];
      if ch == CR {
        state := HeadersAlmostDone;
        return Advance, NO_MARKS;
      }
      if ch == LF {
        state := HeadersAlmostDone;
        return Reexecute, NO_MARKS;
      }
      var c := TokenChar(ch);
      if c == '\0' {
        errno := InvalidHeaderToken;
        return Fail, NO_MARKS;
      }
      m' := NO_MARKS.(field := Some(p));
      DueBegins(calls, data, p, Field);
      index := 0;
      state := HeaderField;
      match c {
        case 'c' => headerState := C;
        case 'p' => headerState := MatchingProxyConnection;
        case 't' => headerState := MatchingTransferEncoding;
        case 'u' => headerState := MatchingUpgrade;
        case _ => headerState := General;
      }
      return Advance, m';
    }

    /** The first byte of a header value, or of a folded line. */
    method DoValueStart(data: string, p: nat) returns (ctl: Control, m': Marks)
      requires p < |data| && errno == OK
      modifies this`state, this`headerState, this`index, this`flags, this`contentLength, this`errno
      ensures Did(StepValueStart(old(Snapshot()), data[p]), old(View()), ctl, m', data, p)
      ensures Kept(old(Joined(calls)), ctl, m')
    {
      hide Emit, Joined, ValueStart;
      m' := NO_MARKS.(value := Some(p));
      DueBegins(calls, data, p, Value);
      state := HeaderValue;
      var ok := StartValueState(data[p]);
      return if ok then Advance else Fail, m';
    }

    /** What the first character of a value tells. */
    method StartValueState(ch: char) returns (ok: bool)
      requires errno == OK
      modifies this`headerState, this`index, this`flags, this`contentLength, this`errno
      ensures match ValueStart(old(ValueOf(Snapshot())).(index := 0), ch)
              case Fine(v) => ok && errno == OK && ValueOf(Snapshot()) == v
              case Bad(e) => !ok && errno == e && e != OK
    {
      hide Lower;
      index := 0;
      var c := Lower(ch);
      if headerState == UpgradeName {
        flags := flags + {Upgrade};
        headerState := General;
      } else if headerState == TransferEncodingName {
        headerState := if c == 'c' then MatchingChunked else General;
      } else if headerState == ContentLengthName {
        if !IsNum(ch) {
          errno := InvalidContentLength;
          return false;
        }
        if ContentLength in flags {
          errno := UnexpectedContentLength;
          return false;
        }
        flags := flags + {ContentLength};
        contentLength := Digit(ch);
        headerState := ContentLengthNum;
      } else if headerState == ContentLengthWs {
        // a folded line goes on in the value state
      } else if headerState == ConnectionName {
        headerState := if c == 'k' then MatchingKeepAlive
                       else if c == 'c' then MatchingClose
                       else if c == 'u' then MatchingConnectionUpgrade
                       else Token;
      } else if headerState == TokenStart {
        // a folded line goes on with the list
      } else {
        headerState := General;
      }
      ok := true;
    }

    /** The end of a header: its flag. */
    method SetFinishedFlag()
      modifies this`flags
      ensures flags == old(flags) + FinishedFlag(headerState)
    {
      if headerState == KeepAliveValue {
        flags := flags + {KeepAlive};
      } else if headerState == CloseValue {
        flags := flags + {Close};
      } else if headerState == ChunkedValue {
        flags := flags + {Chunked};
      } else if headerState == UpgradeValue {
        flags := flags + {ConnectionUpgrade};
      } else {
        assert flags + {} == flags;
      }
    }

    method DoAroundValue(data: string, p: nat) returns (ctl: Control, m': Marks)
      requires p < |data| && errno == OK && InValue(state) && state != HeaderValue
      modifies this
      ensures Did(StepHeaderValue(old(Snapshot()), data[p]), old(View()), ctl, m', data, p)
      ensures Kept(old(Joined(calls)), ctl, m')
    {
      hide Emit, Joined, StepValueStart, FinishedFlag;
      var ch := data[p];
      m' := NO_MARKS;
      ghost var before := View();
      if state == HeaderValueDiscardWs {
        if ch == ' ' || ch == '\t' { return Advance, m'; }
        if ch == CR {
          state := HeaderValueDiscardWsAlmostDone;
          return Advance, m';
        }
        if ch == LF {
          state := HeaderValueDiscardLws;
          return Advance, m';
        }
        ctl, m' := DoValueStart(data, p);
      } else if state == HeaderValueStart {
        ctl, m' := DoValueStart(data, p);
      } else {
        ctl := DoValueEnd(data, p);
        QuietlyDid(StepHeaderValue(before.f, ch), before, ctl, data, p);
      }
    }

    /** The line end behind a value, and the first byte of the next line. */
    method DoValueEnd(data: string, p: nat) returns (ctl: Control)
      requires p < |data| && errno == OK && InValue(state)
      requires state != HeaderValue && state != HeaderValueStart && state != HeaderValueDiscardWs
      modifies this
      ensures DidQuietly(StepHeaderValue(old(Snapshot()), data[p]), old(View()), ctl)
    {
      hide Emit, Joined, StepValueStart, FinishedFlag;
      var ch := data[p];
      if state == HeaderAlmostDone {
        if ch != LF {
          errno := LfExpected;
          return Fail;
        }
        state := HeaderValueLws;
        return Advance;
      }
      if state == HeaderValueLws {
        if ch == ' ' || ch == '\t' {
          if headerState == ContentLengthNum {
            headerState := ContentLengthWs;
          }
          state := HeaderValueStart;
          return Reexecute;
        }
        SetFinishedFlag();
        state := HeaderFieldStart;
        return Reexecute;
      }
      if state == HeaderValueDiscardWsAlmostDone {
        if ch != LF {
          errno := Strict;
          return Fail;
        }
        state := HeaderValueDiscardLws;
        return Advance;
      }
      if ch == ' ' || ch == '\t' {
        state := HeaderValueDiscardWs;
        return Advance;
      }
      if headerState == ContentLengthName {
        errno := InvalidContentLength;
        return Fail;
      }
      SetFinishedFlag();
      state := HeaderFieldStart;
      assert data[p..p] == "";
      Call(Data(Value, data[p..p]));
      return Reexecute;
    }

    method DoHeadersAlmostDone(cfg: Settings, data: string, p: nat) returns (ctl: Control)
      requires p < |data| && errno == OK && state == HeadersAlmostDone
      modifies this
      ensures DidQuietly(StepHeadersEnd(old(Snapshot()), data[p],
                                 cfg.onHeadersComplete(CallbackView(old(Snapshot())), old(Joined(calls)))),
                                     old(View()), ctl)
    {
      hide Emit, Joined;
      if data[p] != LF {
        errno := Strict;
        return Fail;
      }
      if Trailing in flags {
        state := MessageDone;
        Call(ChunkComplete);
        return Reexecute;
      }
      if Chunked in flags && ContentLength in flags {
        errno := UnexpectedContentLength;
        return Fail;
      }
      state := HeadersDone;
      SetUpgrade();
      var reply := AskClient(cfg);
      FollowReply(reply);
      return Reexecute;
    }

    method SetUpgrade()
      modifies this`upgrade
      ensures upgrade == UpgradeOf(old(Snapshot()))
    {
      if Upgrade in flags && ConnectionUpgrade in flags {
        upgrade := kind == Request || statusCode == 101;
      } else {
        upgrade := meth == Connect;
      }
    }

    method FollowReply(reply: Reply)
      modifies this`upgrade, this`flags
      ensures Snapshot() == WithReply(old(Snapshot()), reply)
    {
      match reply {
        case GoOn =>
        case NoBody =>
          flags := flags + {SkipBody};
        case NoBodyUpgrade =>
          upgrade := true;
          flags := flags + {SkipBody};
      }
    }

    /** The headers-complete callback and its answer. */
    method AskClient(cfg: Settings) returns (reply: Reply)
      modifies this`calls
      ensures calls == old(calls) + [HeadersComplete(Snapshot().View())]
      ensures Joined(calls) == Emit(old(Joined(calls)), HeadersComplete(Snapshot().View()))
      ensures reply == cfg.onHeadersComplete(Snapshot().View(), old(Joined(calls)))
    {
      reply := cfg.onHeadersComplete(Snapshot().View(), Joined(calls));
      Call(HeadersComplete(Snapshot().View()));
    }

    method DoHeadersDone(data: string, p: nat) returns (ctl: Control)
      requires p < |data| && errno == OK && state == HeadersDone
      modifies this`state, this`nread, this`calls, this`errno
      ensures forall r :: DidQuietly(StepHeadersEnd(old(Snapshot()), data[p], r), old(View()), ctl)
    {
      hide Emit, Joined;
      if data[p] != LF {
        errno := Strict;
        return Fail;
      }
      nread := 0;
      var hasBody := Chunked in flags || (contentLength > 0 && contentLength != NO_LENGTH);
      if upgrade && (meth == Connect || SkipBody in flags || !hasBody) {
        // the rest of the message is in a different protocol
        FinishMessage();
        return Leave;
      }
      if SkipBody in flags {
        FinishMessage();
      } else if Chunked in flags {
        state := ChunkSizeStart;
      } else if contentLength == 0 {
        FinishMessage();
      } else if contentLength != NO_LENGTH {
        state := BodyIdentity;
      } else {
        var needsEof := MessageNeedsEof();
        if !needsEof {
          FinishMessage();
        } else {
          state := BodyIdentityEof;
        }
      }
      return Advance;
    }

    method DoMessageDone(data: string, p: nat) returns (ctl: Control)
      requires p < |data| && errno == OK && state == MessageDone
      modifies this`state, this`calls
      ensures DidQuietly(StepBody(old(Snapshot()), data[p]), old(View()), ctl)
    {
      hide Emit, Joined;
      FinishMessage();
      if upgrade {
        // the rest of the message is in a different protocol
        return Leave;
      }
      return Advance;
    }

    method DoChunkDigit(cfg: Settings, data: string, p: nat) returns (ctl: Control)
      requires p < |data| && errno == OK && (state == ChunkSizeStart || state == ChunkSize)
      requires NumbersFit(cfg, Snapshot(), true)
      modifies this`state, this`contentLength, this`errno
      ensures DidQuietly(StepChunk(old(Snapshot()), data[p]), old(View()), ctl)
    {
      hide Emit, Joined, Unhex;
      UnhexDigit(data[p]);
      var ch := data[p];
      assert Chunked in flags;
      if state == ChunkSizeStart {
        assert nread == 1;
        var digit := Unhex(ch);
        if digit == -1 {
          errno := InvalidChunkSize;
          return Fail;
        }
        contentLength := digit;
        state := ChunkSize;
        return Advance;
      }
      if ch == CR {
        state := ChunkSizeAlmostDone;
        return Advance;
      }
      var digit := Unhex(ch);
      if digit == -1 {
        if ch == ';' || ch == ' ' {
          state := ChunkParameters;
          return Advance;
        }
        errno := InvalidChunkSize;
        return Fail;
      }
      // 64-bit arithmetic
      var t := contentLength;
      t := (t * 16) % (NO_LENGTH + 1);
      t := (t + digit) % (NO_LENGTH + 1);
      if (NO_LENGTH - 16) / 16 < contentLength {
        errno := InvalidContentLength;
        return Fail;
      }
      HexFits(contentLength, digit);
      contentLength := t;
      return Advance;
    }

    /** Below the bound the 64-bit arithmetic is exact. */
    static lemma HexFits(length: nat, digit: int)
      requires length <= (NO_LENGTH - 16) / 16 && 0 <= digit < 16
      ensures ((length * 16) % (NO_LENGTH + 1) + digit) % (NO_LENGTH + 1) == length * 16 + digit
    {
    }

    method DoChunkSizeEnd(cfg: Settings, data: string, p: nat) returns (ctl: Control)
      requires p < |data| && errno == OK && (state == ChunkParameters || state == ChunkSizeAlmostDone)
      requires NumbersFit(cfg, Snapshot(), true)
      modifies this`state, this`flags, this`nread, this`calls, this`errno
      ensures DidQuietly(StepChunk(old(Snapshot()), data[p]), old(View()), ctl)
    {
      hide Emit, Joined;
      var ch := data[p];
      assert Chunked in flags;
      if state == ChunkParameters {
        if ch == CR {
          state := ChunkSizeAlmostDone;
        }
        return Advance;
      }
      if ch != LF {
        errno := Strict;
        return Fail;
      }
      nread := 0;
      if contentLength == 0 {
        flags := flags + {Trailing};
        state := HeaderFieldStart;
      } else {
        state := ChunkData;
      }
      Call(ChunkHeader(contentLength));
      return Advance;
    }

    method DoChunkEnd(cfg: Settings, data: string, p: nat, m: Marks) returns (ctl: Control, m': Marks)
      requires p < |data| && errno == OK && (state == ChunkDataAlmostDone || state == ChunkDataDone)
      requires NumbersFit(cfg, Snapshot(), true) && MarksFit(state, m, p)
      modifies this
      ensures Did(StepChunk(old(Snapshot()), data[p]), old(ViewAt(m, data, p)), ctl, m', data, p)
      ensures Kept(old(Joined(calls)), ctl, m')
    {
      hide Emit, Joined;
      assert Chunked in flags;
      m' := NO_MARKS;
      if state == ChunkDataAlmostDone {
        assert contentLength == 0;
        if data[p] != CR {
          errno := Strict;
          return Fail, m';
        }
        state := ChunkDataDone;
        if m.body.Some? {
          CallDue(m, data, p);
        }
      } else {
        if data[p] != LF {
          errno := Strict;
          return Fail, m';
        }
        nread := 0;
        state := ChunkSizeStart;
        Call(ChunkComplete);
      }
      return Advance, m';
    }

    /** COUNT_HEADER_SIZE */
    method CountHeaderSize(cfg: Settings, v: nat) returns (ok: bool)
      modifies this`nread, this`errno
      ensures nread == old(nread) + v && ok == (nread <= cfg.limit)
      ensures errno == if ok then old(errno) else HeaderOverflow
    {
      nread := nread + v;
      ok := nread <= cfg.limit;
      if !ok {
        errno := HeaderOverflow;
      }
    }

    // -------------------------------------------------------------- states that take a block

    /** After executing up to byte `p` (that began in a run from `start`), control is `ctl`. */
    ghost predicate Went(cfg: Settings, start: Parser, data: string, ctl: Control, p: nat, m: Marks)
      reads this
    {
      && p < |data|
      && match ctl
         case Advance =>
           && errno == OK && MarksFit(state, m, p + 1)
           && Run(cfg, start, data[..p + 1]) == Running(ViewAt(m, data, p + 1))
         case Reexecute =>
           && errno == OK && MarksFit(state, m, p) && Inv(cfg, ViewAt(m, data, p), true)
           && state != HeaderField && state != HeaderValue && !TakesBody(state)
           && Run(cfg, start, data[..p + 1]) == Exec(cfg, ViewAt(m, data, p), data[p], p)
         case Leave => errno == OK && Run(cfg, start, data) == Exited(View(), p + 1)
         case Fail => FailedAs(Run(cfg, start, data), errno, p)
    }

    method DoBodyIdentity(cfg: Settings, ghost start: Parser, data: string, p: nat, m: Marks)
      returns (ctl: Control, p': nat, m': Marks)
      requires p < |data| && errno == OK && state == BodyIdentity && MarksFit(state, m, p)
      requires Reachable(cfg, start) && NumbersFit(cfg, Snapshot(), true)
      requires Run(cfg, start, data[..p]) == Running(ViewAt(m, data, p))
      modifies this`state, this`contentLength, this`calls
      ensures p <= p' && Went(cfg, start, data, ctl, p', m')
      ensures Kept(old(Joined(calls)), ctl, m')
    {
      hide Emit, Joined, Exec, Run, TraceOf, Inv, NumbersFit, Due;
      ghost var v := ViewAt(m, data, p);
      var left := |data| - p;
      var toRead := if contentLength < left then contentLength else left;
      BodyNumbers(cfg, Snapshot());
      assert contentLength != 0 && contentLength != NO_LENGTH;
      ghost var q := p + toRead;
      m' := MarkBody(m, p);
      BodyDue(calls, state, m, data, p, q);
      contentLength := contentLength - toRead;
      p' := p + (toRead - 1);
      if contentLength == 0 {
        RunLastBody(cfg, start, data, p, q, v);
        state := MessageDone;
        CallDue(m', data, p' + 1);
        NothingDue(calls, data, p');
        assert ViewAt(NO_MARKS, data, p') == Parser(v.f.(contentLength := 0, state := MessageDone),
                                                    Emit(v.trace, Data(Body, data[p..q])));
        return Reexecute, p', NO_MARKS;
      }
      RunBody(cfg, start, data, p, q, v);
      assert ViewAt(m', data, q) == AfterBody(v, data[p..q]);
      assert p' + 1 == q;
      return Advance, p', m';
    }

    method DoBodyIdentityEof(cfg: Settings, ghost start: Parser, data: string, p: nat, m: Marks)
      returns (ctl: Control, p': nat, m': Marks)
      requires p < |data| && errno == OK && state == BodyIdentityEof && MarksFit(state, m, p)
      requires Run(cfg, start, data[..p]) == Running(ViewAt(m, data, p))
      ensures p <= p' && Went(cfg, start, data, ctl, p', m')
      ensures Kept(old(Joined(calls)), ctl, m')
    {
      hide Emit, Joined, Exec, Run, TraceOf, Inv;
      m' := MarkBody(m, p);
      BodyDue(calls, state, m, data, p, |data|);
      RunBody(cfg, start, data, p, |data|, ViewAt(m, data, p));
      return Advance, |data| - 1, m';
    }

    method DoChunkData(cfg: Settings, ghost start: Parser, data: string, p: nat, m: Marks)
      returns (ctl: Control, p': nat, m': Marks)
      requires p < |data| && errno == OK && state == ChunkData && MarksFit(state, m, p)
      requires NumbersFit(cfg, Snapshot(), true)
      requires Run(cfg, start, data[..p]) == Running(ViewAt(m, data, p))
      modifies this`state, this`contentLength
      ensures p <= p' && Went(cfg, start, data, ctl, p', m')
      ensures Kept(old(Joined(calls)), ctl, m')
    {
      hide Emit, Joined, Exec, Run, TraceOf, Inv, NumbersFit, Due;
      ghost var v := ViewAt(m, data, p);
      var left := |data| - p;
      var toRead := if contentLength < left then contentLength else left;
      BodyNumbers(cfg, Snapshot());
      assert Chunked in flags;
      assert contentLength != 0 && contentLength != NO_LENGTH;
      ghost var q := p + toRead;
      m' := MarkBody(m, p);
      BodyDue(calls, state, m, data, p, q);
      contentLength := contentLength - toRead;
      p' := p + (toRead - 1);
      assert p' + 1 == q;
      if contentLength == 0 {
        RunLastChunk(cfg, start, data, p, q, v);
        state := ChunkDataAlmostDone;
        assert ViewAt(m', data, q) == Parser(v.f.(contentLength := 0, state := ChunkDataAlmostDone),
                                             Emit(v.trace, Data(Body, data[p..q])));
      } else {
        RunBody(cfg, start, data, p, q, v);
        assert ViewAt(m', data, q) == AfterBody(v, data[p..q]);
      }
      return Advance, p', m';
    }

    /** One more token character of a header name that is still being matched. */
    method MatchNameChar(c: char)
      requires MatchersFit(Snapshot()) && state == HeaderField && headerState != General
      modifies this`headerState, this`index
      ensures headerState == NameStep(old(headerState), old(index), c)
      ensures index == if NameMatching(old(headerState)) then old(index) + 1 else old(index)
    {
      match headerState {
        case C =>
          index := index + 1;
          headerState := if c == 'o' then CO else General;
        case CO =>
          index := index + 1;
          headerState := if c == 'n' then CON else General;
        case CON =>
          index := index + 1;
          headerState := if c == 'n' then MatchingConnection
                         else if c == 't' then MatchingContentLength
                         else General;
        case MatchingConnection =>
          MatchNameIn("connection", c, ConnectionName);
        case MatchingProxyConnection =>
          MatchNameIn("proxy-connection", c, ConnectionName);
        case MatchingContentLength =>
          MatchNameIn("content-length", c, ContentLengthName);
        case MatchingTransferEncoding =>
          MatchNameIn("transfer-encoding", c, TransferEncodingName);
        case MatchingUpgrade =>
          MatchNameIn("upgrade", c, UpgradeName);
        case ConnectionName =>
          headerState := General;
        case ContentLengthName =>
          headerState := General;
        case TransferEncodingName =>
          headerState := General;
        case UpgradeName =>
          headerState := General;
        case _ =>
          assert false; // unknown header state
      }
    }

    method MatchNameIn(name: string, c: char, done: HeaderState)
      modifies this`headerState, this`index
      ensures index == old(index) + 1
      ensures headerState == MatchName(name, old(index), c, old(headerState), done)
    {
      index := index + 1;
      if index >= |name| || c != name[index] {
        headerState := General;
      } else if index == |name| - 1 {
        headerState := done;
      }
    }

    /** The view with the header bytes `from..p` counted that the code counts later. */
    ghost function ViewCounted(m: Marks, data: string, p: nat, n: nat): Parser
      reads this
    {
      ViewAt(m, data, p).(f := Snapshot().(nread := n))
    }

    method DoHeaderField(cfg: Settings, ghost start: Parser, data: string, from: nat, m: Marks)
      returns (ctl: Control, p: nat, m': Marks)
      requires from < |data| && errno == OK && state == HeaderField && MarksFit(state, m, from)
      requires MatchersFit(Snapshot()) && 1 <= nread <= cfg.limit
      requires Agrees(cfg, start, data, from, ViewCounted(m, data, from, nread - 1))
      modifies this`state, this`headerState, this`index, this`nread, this`calls, this`errno
      ensures from <= p && ctl != Reexecute && Went(cfg, start, data, ctl, p, m')
      ensures Kept(old(Joined(calls)), ctl, m')
    {
      hide Emit, Joined, Exec, Run, Step, Inv, MatchersFit, TraceOf, Due, Agrees, TokenChar, MarksFit, FailedAs;
      m' := m;
      p := ReadName(cfg, start, data, from, m);
      if p == |data| {
        ctl := EndOfBlock(cfg, start, data, from, m);
        return ctl, p - 1, m;
      }
      ctl, m' := EndHeaderField(cfg, start, data, from, p, m);
    }

    /** The loop over the characters of a header name. */
    method ReadName(cfg: Settings, ghost start: Parser, data: string, from: nat, m: Marks) returns (p: nat)
      requires from < |data| && errno == OK && state == HeaderField && MarksFit(state, m, from)
      requires MatchersFit(Snapshot()) && nread >= 1
      requires Agrees(cfg, start, data, from, ViewCounted(m, data, from, nread - 1))
      modifies this`headerState, this`index
      ensures from <= p <= |data| && MarksFit(state, m, p) && (p < |data| ==> TokenChar(data[p]) == '\0')
      ensures Agrees(cfg, start, data, p, ViewCounted(m, data, p, nread + (p - from) - 1))
    {
      hide Emit, Joined, Exec, Run, Step, Inv, MatchersFit, TraceOf, Due, Agrees, TokenChar, NameStep, AfterNameChar,
        MarksFit;
      p := from;
      while p < |data|
        invariant from <= p <= |data| && MarksFit(state, m, p) && MatchersFit(Snapshot())
        invariant Agrees(cfg, start, data, p, ViewCounted(m, data, p, nread + (p - from) - 1))
      {
        var c := TokenChar(data[p]);
        if c == '\0' {
          return;
        }
        if headerState == General {
          var left := |data| - p;
          var pe := p + if left < cfg.limit then left else cfg.limit;
          while p + 1 < pe && TokenChar(data[p + 1]) != '\0'
            invariant from <= p < |data| && pe <= |data| && headerState == General
            invariant MarksFit(state, m, p) && MatchersFit(Snapshot()) && TokenChar(data[p]) != '\0'
            invariant Agrees(cfg, start, data, p, ViewCounted(m, data, p, nread + (p - from) - 1))
          {
            GeneralNameChar(cfg, start, data, p, m, nread + (p - from) - 1);
            p := p + 1;
          }
          GeneralNameChar(cfg, start, data, p, m, nread + (p - from) - 1);
        } else {
          MatchedNameChar(cfg, start, data, p, m, nread + (p - from) - 1);
        }
        p := p + 1;
      }
    }

    /** The buffer ends inside of a header name or value: its bytes are counted. */
    method EndOfBlock(cfg: Settings, ghost start: Parser, data: string, from: nat, m: Marks) returns (ctl: Control)
      requires from < |data| && errno == OK && MarksFit(state, m, |data|)
      requires nread >= 1 && Agrees(cfg, start, data, |data|, ViewCounted(m, data, |data|, nread + (|data| - from) - 1))
      modifies this`nread, this`errno
      ensures (ctl == Advance || ctl == Fail) && Went(cfg, start, data, ctl, |data| - 1, m)
    {
      hide Emit, Joined, Exec, Run, Inv, TraceOf, Due, Agrees;
      var ok := CountHeaderSize(cfg, |data| - 1 - from);
      if !ok {
        AgreesOverflow(cfg, start, data, |data|, ViewCounted(m, data, |data|, nread), |data| - 1);
        return Fail;
      }
      AgreesWithin(cfg, start, data, |data|, ViewAt(m, data, |data|));
      return Advance;
    }

    /** A byte that is no token character ends the header name. */
    method EndHeaderField(cfg: Settings, ghost start: Parser, data: string, from: nat, p: nat, m: Marks)
      returns (ctl: Control, m': Marks)
      requires from <= p < |data| && errno == OK && state == HeaderField && MarksFit(state, m, p)
      requires TokenChar(data[p]) == '\0' && nread >= 1
      requires Agrees(cfg, start, data, p, ViewCounted(m, data, p, nread + (p - from) - 1))
      modifies this`state, this`nread, this`calls, this`errno
      ensures ctl != Reexecute && Went(cfg, start, data, ctl, p, m')
      ensures Kept(old(Joined(calls)), ctl, m')
    {
      hide Emit, Joined, Exec, Run, Inv, TraceOf, Due, Agrees, TokenChar;
      DueInState(state, m, data, p);
      ghost var v := ViewCounted(m, data, p, nread + (p - from) - 1);
      var ok := CountHeaderSize(cfg, p - from);
      if !ok {
        AgreesOverflowNext(cfg, start, data, p, v);
        return Fail, m;
      }
      assert Step(cfg, Counted(v), data[p]) == StepHeaderName(Counted(v).f, data[p]);
      if data[p] == ':' {
        AgreesBreak(cfg, start, data, p, v);
        AgreesWithin(cfg, start, data, p + 1, After(Counted(v), Step(cfg, Counted(v), data[p])));
        state := HeaderValueDiscardWs;
        CallDue(m, data, p);
        NothingDue(calls, data, p + 1);
        return Advance, NO_MARKS;
      }
      AgreesError(cfg, start, data, p, v);
      errno := InvalidHeaderToken;
      return Fail, m;
    }

    /** A token character of a name that matches none of the known ones changes no field. */
    lemma GeneralNameChar(cfg: Settings, start: Parser, data: string, p: nat, m: Marks, n: nat)
      requires p < |data| && state == HeaderField && headerState == General && TokenChar(data[p]) != '\0'
      requires MarksFit(state, m, p)
      requires Agrees(cfg, start, data, p, ViewCounted(m, data, p, n))
      ensures Agrees(cfg, start, data, p + 1, ViewCounted(m, data, p + 1, n + 1))
      ensures MarksFit(state, m, p + 1)
    {
      hide Emit, Joined, Exec, Run, Inv, TraceOf, Due, Agrees, TokenChar;
      DueInState(state, m, data, p);
      DueInState(state, m, data, p + 1);
      NameCharAgrees(cfg, start, data, p, ViewCounted(m, data, p, n));
      DueGrows(calls, m, data, p);
      assert ViewCounted(m, data, p + 1, n + 1) == AfterNameChar(ViewCounted(m, data, p, n), data[p]);
    }

    /** A token character of a name that is still being matched. */
    method MatchedNameChar(cfg: Settings, ghost start: Parser, data: string, p: nat, m: Marks, ghost n: nat)
      requires p < |data| && state == HeaderField && headerState != General && TokenChar(data[p]) != '\0'
      requires MarksFit(state, m, p) && MatchersFit(Snapshot())
      requires Agrees(cfg, start, data, p, ViewCounted(m, data, p, n))
      modifies this`headerState, this`index
      ensures Agrees(cfg, start, data, p + 1, ViewCounted(m, data, p + 1, n + 1))
      ensures MarksFit(state, m, p + 1) && MatchersFit(Snapshot())
    {
      hide Emit, Joined, Exec, Run, Inv, TraceOf, Due, Agrees, TokenChar, NameStep, MatchersFit;
      DueInState(state, m, data, p);
      DueInState(state, m, data, p + 1);
      NameCharFits(Snapshot(), data[p]);
      ghost var v := ViewCounted(m, data, p, n);
      NameCharAgrees(cfg, start, data, p, v);
      DueGrows(calls, m, data, p);
      MatchNameChar(TokenChar(data[p]));
      assert ViewCounted(m, data, p + 1, n + 1) == AfterNameChar(v, data[p]);
      assert Snapshot() == v.f.(headerState := headerState, index := index, nread := nread);
    }

    /** The same with the header state that the code keeps in a local variable. */
    ghost function ViewValue(m: Marks, data: string, p: nat, n: nat, hs: HeaderState): Parser
      reads this
    {
      ViewAt(m, data, p).(f := Snapshot().(nread := n, headerState := hs))
    }

    /** One more character of a header value, in a state that looks at every one. */
    method MatchValueChar(ch: char, hs: HeaderState) returns (ok: bool, hs': HeaderState)
      requires errno == OK && ValueIndexFits(hs, index) && hs != General
      modifies this`index, this`flags, this`contentLength, this`errno
      ensures match ValueStep(old(ValueState(hs, index, flags, contentLength)), ch)
              case Fine(v) => ok && errno == OK && ValueState(hs', index, flags, contentLength) == v
              case Bad(e) => !ok && errno == e && e != OK
    {
      hide Lower, TokenChar;
      if hs == ContentLengthNum || hs == ContentLengthWs {
        ok, hs' := MatchLengthChar(ch, hs);
      } else if hs == KeepAliveValue || hs == CloseValue || hs == UpgradeValue {
        ok := true;
        hs' := MatchTokenEnd(ch, hs);
      } else {
        ok := true;
        hs' := MatchTokenChar(ch, hs);
      }
    }

    method MatchLengthChar(ch: char, hs: HeaderState) returns (ok: bool, hs': HeaderState)
      requires errno == OK && (hs == ContentLengthNum || hs == ContentLengthWs)
      modifies this`contentLength, this`errno
      ensures match ValueStep(old(ValueState(hs, index, flags, contentLength)), ch)
              case Fine(v) => ok && errno == OK && ValueState(hs', index, flags, contentLength) == v
              case Bad(e) => !ok && errno == e && e != OK
    {
      if hs == ContentLengthNum {
        if ch == ' ' {
          return true, ContentLengthWs;
        }
        if !IsNum(ch) {
          errno := InvalidContentLength;
          return false, hs;
        }
        // 64-bit arithmetic
        var t := contentLength;
        t := (t * 10) % (NO_LENGTH + 1);
        t := (t + Digit(ch)) % (NO_LENGTH + 1);
        if (NO_LENGTH - 10) / 10 < contentLength {
          errno := InvalidContentLength;
          return false, hs;
        }
        contentLength := t;
      } else if ch != ' ' {
        errno := InvalidContentLength;
        return false, hs;
      }
      return true, hs;
    }

    /** A recognised Connection token ends at a comma; any other character but a space undoes it. */
    method MatchTokenEnd(ch: char, hs: HeaderState) returns (hs': HeaderState)
      requires hs == KeepAliveValue || hs == CloseValue || hs == UpgradeValue
      modifies this`index, this`flags
      ensures ValueStep(old(ValueState(hs, index, flags, contentLength)), ch)
              == Fine(ValueState(hs', index, flags, contentLength))
    {
      if ch == ',' {
        if hs == KeepAliveValue {
          flags := flags + {KeepAlive};
        } else if hs == CloseValue {
          flags := flags + {Close};
        } else {
          flags := flags + {ConnectionUpgrade};
        }
        index := 0;
        return TokenStart;
      }
      return if ch != ' ' then Token else hs;
    }

    method MatchTokenChar(ch: char, hs: HeaderState) returns (hs': HeaderState)
      requires ValueIndexFits(hs, index) && hs != General && hs != ContentLengthNum && hs != ContentLengthWs
      requires hs != KeepAliveValue && hs != CloseValue && hs != UpgradeValue
      modifies this`index
      ensures ValueStep(old(ValueState(hs, index, flags, contentLength)), ch)
              == Fine(ValueState(hs', index, flags, contentLength))
    {
      hide Lower, TokenChar;
      var c := Lower(ch);
      hs' := hs;
      if hs == MatchingChunked {
        hs' := MatchWord("chunked", c, hs, ChunkedValue, General);
      } else if hs == TokenStart {
        if c == 'k' {
          hs' := MatchingKeepAlive;
        } else if c == 'c' {
          hs' := MatchingClose;
        } else if c == 'u' {
          hs' := MatchingConnectionUpgrade;
        } else if TokenChar(c) != '\0' {
          hs' := Token;
        } else if c == ' ' || c == '\t' {
          // skip white space
        } else {
          hs' := General;
        }
      } else if hs == MatchingKeepAlive {
        hs' := MatchWord("keep-alive", c, hs, KeepAliveValue, Token);
      } else if hs == MatchingClose {
        hs' := MatchWord("close", c, hs, CloseValue, Token);
      } else if hs == MatchingConnectionUpgrade {
        hs' := MatchWord("upgrade", c, hs, UpgradeValue, Token);
      } else if hs == Token {
        if ch == ',' {
          hs' := TokenStart;
          index := 0;
        }
      } else {
        assert hs == ChunkedValue; // the other header states belong to names
        if ch != ' ' {
          hs' := General;
        }
      }
    }

    method MatchWord(word: string, c: char, here: HeaderState, done: HeaderState, otherwise: HeaderState)
      returns (hs: HeaderState)
      modifies this`index
      ensures index == old(index) + 1
      ensures hs == if index >= |word| || c != word[index] then otherwise
                    else if index == |word| - 1 then done else here
    {
      index := index + 1;
      hs := here;
      if index >= |word| || c != word[index] {
        hs := otherwise;
      } else if index == |word| - 1 {
        hs := done;
      }
    }

    /** A character of a value that changes no field. */
    lemma GeneralValueChar(cfg: Settings, start: Parser, data: string, p: nat, m: Marks, n: nat)
      requires p < |data| && state == HeaderValue && InsideValue(data[p]) && MarksFit(state, m, p)
      requires Agrees(cfg, start, data, p, ViewValue(m, data, p, n, General))
      ensures Agrees(cfg, start, data, p + 1, ViewValue(m, data, p + 1, n + 1, General))
      ensures MarksFit(state, m, p + 1)
    {
      hide Emit, Joined, Exec, Run, Inv, TraceOf, Due, Agrees, InsideValue;
      DueInState(state, m, data, p);
      DueInState(state, m, data, p + 1);
      var v := ViewValue(m, data, p, n, General);
      ValueCharAgrees(cfg, start, data, p, v);
      DueGrows(calls, m, data, p);
      assert ViewValue(m, data, p + 1, n + 1, General) == AfterValueChar(v, ValueOf(v.f), data[p]);
    }

    /** The block skip through a value nobody looks into: on return, the bytes up to and
        including `p` are taken, or too many of them. */
    method SkipValue(cfg: Settings, ghost start: Parser, data: string, from: nat, p0: nat, m: Marks)
      returns (ok: bool, p: nat)
      requires from <= p0 < |data| && errno == OK && state == HeaderValue && MarksFit(state, m, p0) && nread >= 1
      requires InsideValue(data[p0])
      requires Agrees(cfg, start, data, p0, ViewValue(m, data, p0, nread + (p0 - from) - 1, General))
      modifies this`errno
      ensures p0 <= p < |data|
      ensures ok ==> errno == OK && MarksFit(state, m, p + 1)
      ensures ok ==> Agrees(cfg, start, data, p + 1, ViewValue(m, data, p + 1, nread + (p + 1 - from) - 1, General))
      ensures !ok ==> FailedAs(Run(cfg, start, data), errno, p)
    {
      hide Emit, Joined, Exec, Run, Inv, TraceOf, Due, Agrees, FailedAs;
      p := p0;
      var left := |data| - p;
      var pe := p + if left < cfg.limit then left else cfg.limit;
      while p < pe
        invariant p0 <= p <= pe <= |data| && errno == OK && state == HeaderValue && MarksFit(state, m, p)
        invariant p == p0 ==> InsideValue(data[p])
        invariant Agrees(cfg, start, data, p, ViewValue(m, data, p, nread + (p - from) - 1, General))
      {
        var ch := data[p];
        if ch == CR || ch == LF {
          return true, p - 1;
        }
        if !IsHeaderChar(ch) {
          ValueCharRefused(cfg, start, data, p, ViewValue(m, data, p, nread + (p - from) - 1, General));
          errno := InvalidHeaderToken;
          return false, p;
        }
        GeneralValueChar(cfg, start, data, p, m, nread + (p - from) - 1);
        p := p + 1;
      }
      if p == |data| {
        return true, p - 1;
      }
      // the loop goes on after `p`: a byte nobody looks at, but one too many
      TooMany(cfg, start, data, p, ViewValue(m, data, p, nread + (p - from) - 1, General),
              ViewValue(m, data, p + 1, nread + (p + 1 - from) - 1, General));
      return true, p;
    }

    /** A character of a value in a state that looks at every one. */
    method MatchedValueChar(cfg: Settings, ghost start: Parser, data: string, p: nat, m: Marks, ghost n: nat,
                            hs: HeaderState)
      returns (ok: bool, hs': HeaderState)
      requires p < |data| && errno == OK && state == HeaderValue && InsideValue(data[p]) && MarksFit(state, m, p)
      requires ValueIndexFits(hs, index) && hs != General
      requires Agrees(cfg, start, data, p, ViewValue(m, data, p, n, hs))
      modifies this`index, this`flags, this`contentLength, this`errno
      ensures ok ==> errno == OK && MarksFit(state, m, p + 1) && ValueIndexFits(hs', index)
      ensures ok ==> Agrees(cfg, start, data, p + 1, ViewValue(m, data, p + 1, n + 1, hs'))
      ensures !ok ==> FailedAs(Run(cfg, start, data), errno, p)
    {
      hide Emit, Joined, Exec, Run, Inv, TraceOf, Due, Agrees, FailedAs, InsideValue, ValueStep, ValueIndexFits;
      DueInState(state, m, data, p);
      DueInState(state, m, data, p + 1);
      ghost var v := ViewValue(m, data, p, n, hs);
      assert ValueOf(v.f) == ValueState(hs, index, flags, contentLength);
      MatchersValueStep(ValueOf(v.f), data[p]);
      ValueCharAgrees(cfg, start, data, p, v);
      DueGrows(calls, m, data, p);
      ok, hs' := MatchValueChar(data[p], hs);
      if ok {
        ghost var w := ValueState(hs', index, flags, contentLength);
        assert ViewValue(m, data, p + 1, n + 1, hs') == AfterValueChar(v, w, data[p]);
      }
    }

    method DoHeaderValue(cfg: Settings, ghost start: Parser, data: string, from: nat, m: Marks)
      returns (ctl: Control, p: nat, m': Marks)
      requires from < |data| && errno == OK && state == HeaderValue && MarksFit(state, m, from)
      requires ValueIndexFits(headerState, index) && 1 <= nread <= cfg.limit && Reachable(cfg, start)
      requires Agrees(cfg, start, data, from, ViewCounted(m, data, from, nread - 1))
      requires PhaseAfter(TraceOf(calls, m, data, from)).Some?
      modifies this`state, this`headerState, this`index, this`flags, this`contentLength, this`nread, this`calls,
          this`errno
      ensures from <= p && Went(cfg, start, data, ctl, p, m')
      ensures Kept(old(Joined(calls)), ctl, m') || Told()
    {
      hide Emit, Joined, Exec, Run, Step, Inv, TraceOf, Due, Agrees, FailedAs, PhaseAfter;
      assert m.value.Some? && m.value.value <= from && m.field == None;
      var ok, hState;
      ok, p, hState := ReadValue(cfg, start, data, from, m);
      headerState := hState;
      if !ok {
        return Fail, p, m;
      }
      if p == |data| {
        ctl := EndOfBlock(cfg, start, data, from, m);
        return ctl, p - 1, m;
      }
      if data[p] == CR {
        ValueDue(calls, m, data, from, p);
        ctl := EndValueCR(cfg, start, data, from, p, m);
      } else {
        ctl := EndValueLF(cfg, start, data, from, p, m);
      }
      m' := if ctl == Fail then m else NO_MARKS;
    }

    /** The loop over the characters of a value, up to its line end or the end of the buffer. */
    method ReadValue(cfg: Settings, ghost start: Parser, data: string, from: nat, m: Marks)
      returns (ok: bool, p: nat, hState: HeaderState)
      requires from < |data| && errno == OK && state == HeaderValue && MarksFit(state, m, from)
      requires ValueIndexFits(headerState, index) && nread >= 1
      requires Agrees(cfg, start, data, from, ViewCounted(m, data, from, nread - 1))
      modifies this`index, this`flags, this`contentLength, this`errno
      ensures from <= p <= |data|
      ensures ok ==> errno == OK && MarksFit(state, m, p) && (p < |data| ==> data[p] == CR || data[p] == LF)
      ensures ok ==> Agrees(cfg, start, data, p, ViewValue(m, data, p, nread + (p - from) - 1, hState))
      ensures !ok ==> p < |data| && FailedAs(Run(cfg, start, data), errno, p)
    {
      hide Emit, Joined, Exec, Run, Step, Inv, TraceOf, Due, Agrees, IsHeaderChar, ValueIndexFits, FailedAs, MarksFit;
      p := from;
      hState := headerState;
      while p < |data| && data[p] != CR && data[p] != LF
        invariant from <= p <= |data| && errno == OK && MarksFit(state, m, p) && ValueIndexFits(hState, index)
        invariant Agrees(cfg, start, data, p, ViewValue(m, data, p, nread + (p - from) - 1, hState))
      {
        if !IsHeaderChar(data[p]) {
          ValueCharRefused(cfg, start, data, p, ViewValue(m, data, p, nread + (p - from) - 1, hState));
          errno := InvalidHeaderToken;
          return false, p, hState;
        }
        if hState == General {
          ok, p := SkipValue(cfg, start, data, from, p, m);
        } else {
          ok, hState := MatchedValueChar(cfg, start, data, p, m, nread + (p - from) - 1, hState);
        }
        if !ok {
          return false, p, hState;
        }
        p := p + 1;
      }
      ok := true;
    }

    method EndValueCR(cfg: Settings, ghost start: Parser, data: string, from: nat, p: nat, m: Marks)
      returns (ctl: Control)
      requires from <= p < |data| && errno == OK && state == HeaderValue && MarksFit(state, m, p) && data[p] == CR
      requires nread >= 1 && Agrees(cfg, start, data, p, ViewCounted(m, data, p, nread + (p - from) - 1))
      requires PhaseAfter(TraceOf(calls, m, data, p)).Some?
      modifies this`state, this`nread, this`calls, this`errno
      ensures (ctl == Advance || ctl == Fail) && Went(cfg, start, data, ctl, p, NO_MARKS)
      ensures ctl == Fail ==> Told()
    {
      hide Emit, Joined, Exec, Run, Inv, TraceOf, Due, Agrees, FailedAs;
      DueInState(state, m, data, p);
      ghost var v := ViewCounted(m, data, p, nread + (p - from) - 1);
      state := HeaderAlmostDone;
      CallDue(m, data, p);
      NothingDue(calls, data, p + 1);
      var ok := CountHeaderSize(cfg, p - from);
      if !ok {
        AgreesOverflowNext(cfg, start, data, p, v);
        return Fail;
      }
      ValueEndsCR(cfg, start, data, p, v);
      return Advance;
    }

    method EndValueLF(cfg: Settings, ghost start: Parser, data: string, from: nat, p: nat, m: Marks)
      returns (ctl: Control)
      requires from <= p < |data| && errno == OK && state == HeaderValue && MarksFit(state, m, p) && data[p] == LF
      requires Reachable(cfg, start)
      requires nread >= 1 && Agrees(cfg, start, data, p, ViewCounted(m, data, p, nread + (p - from) - 1))
      modifies this`state, this`nread, this`calls, this`errno
      ensures (ctl == Reexecute || ctl == Fail) && Went(cfg, start, data, ctl, p, NO_MARKS)
      ensures Kept(old(Joined(calls)), ctl, NO_MARKS)
    {
      hide Emit, Joined, Exec, Run, Inv, TraceOf, Due, Agrees, FailedAs;
      DueInState(state, m, data, p);
      ghost var v := ViewCounted(m, data, p, nread + (p - from) - 1);
      state := HeaderAlmostDone;
      var ok := CountHeaderSize(cfg, p - from);
      if !ok {
        AgreesOverflowNext(cfg, start, data, p, v);
        return Fail;
      }
      CallDue(m, data, p);
      NothingDue(calls, data, p);
      ValueEndsLF(cfg, start, data, p, v);
      return Reexecute;
    }

    // -------------------------------------------------------------- the switch and the loop

    /** The states whose case in the switch works without a mark. */
    static predicate Quiet(s: State) {
      || InStart(s) || ResH <= s <= ResStatusCode || s == ResLineAlmostDone || s == ReqMethod || InVersion(s)
      || InHeadersEnd(s) || s == MessageDone || ChunkSizeStart <= s <= ChunkSizeAlmostDone
    }

    method DoQuiet(cfg: Settings, data: string, p: nat) returns (ctl: Control)
      requires p < |data| && errno == OK && Quiet(state) && NumbersFit(cfg, Snapshot(), true)
      modifies this
      ensures DidQuietly(Step(cfg, old(View()), data[p]), old(View()), ctl)
    {
      hide DidQuietly, Emit, Joined, NumbersFit, StepStart, StepStatusLine, StepMethod, StepRequestVersion,
        StepHeadersEnd, StepBody, StepChunk;
      if InStart(state) {
        ctl := DoStart(data, p);
      } else if state <= ResHttpEnd {
        ctl := DoStatusVersion(data, p);
      } else if state <= ResLineAlmostDone {
        ctl := DoStatusCode(data, p);
      } else if state == ReqMethod {
        ctl := DoMethod(data, p);
      } else if InVersion(state) {
        ctl := DoVersion(data, p);
      } else if state == HeadersAlmostDone {
        ctl := DoHeadersAlmostDone(cfg, data, p);
      } else if state == HeadersDone {
        ctl := DoHeadersDone(data, p);
      } else if state == MessageDone {
        ctl := DoMessageDone(data, p);
      } else if state <= ChunkSize {
        ctl := DoChunkDigit(cfg, data, p);
      } else {
        ctl := DoChunkSizeEnd(cfg, data, p);
      }
    }

    method DoMarked(cfg: Settings, data: string, p: nat, m: Marks) returns (ctl: Control, m': Marks)
      requires p < |data| && errno == OK && MarksFit(state, m, p) && NumbersFit(cfg, Snapshot(), true)
      requires !Quiet(state) && state != HeaderField && state != HeaderValue && !TakesBody(state)
      modifies this
      ensures Did(Step(cfg, old(ViewAt(m, data, p)), data[p]), old(ViewAt(m, data, p)), ctl, m', data, p)
      ensures Kept(old(Joined(calls)), ctl, m')
    {
      hide Did, Emit, Joined, NumbersFit, StepStatusLine, StepUrl, StepHeaderName, StepHeaderValue, StepChunk;
      if state == ResStatusStart {
        ctl, m' := DoStatusStart(data, p);
      } else if state == ResStatus {
        ctl, m' := DoStatus(data, p, m);
      } else if state == ReqSpacesBeforeUrl {
        ctl, m' := DoUrlStart(data, p);
      } else if InUrl(state) {
        ctl, m' := DoUrl(data, p, m);
      } else if state == HeaderFieldStart {
        ctl, m' := DoHeaderFieldStart(data, p);
      } else if InValue(state) {
        ctl, m' := DoAroundValue(data, p);
      } else {
        ctl, m' := DoChunkEnd(cfg, data, p, m);
      }
    }

    lemma QuietMarks(m: Marks, data: string, p: nat)
      requires Quiet(state) && MarksFit(state, m, p)
      ensures m == NO_MARKS && ViewAt(m, data, p) == View()
    {
    }

    /** Once a byte has gone where the run demands, the callbacks obey the grammar. */
    lemma StaysTold(cfg: Settings, start: Parser, data: string, ctl: Control, p: nat, m: Marks, before: seq<Event>)
      requires Went(cfg, start, data, ctl, p, m) && Reachable(cfg, start)
      requires PhaseAfter(before).Some? && Kept(before, ctl, m)
      ensures Told()
    {
      hide Exec, Run, MarksFit, NumbersFit, MatchersFit, Fits, FailedAs, Emit, Joined, PhaseAfter, TraceOf;
      NothingDue(calls, data, p);
      NothingDue(calls, data, p + 1);
      if ctl == Advance {
        InvRun(cfg, start, data[..p + 1]);
      } else if ctl == Leave {
        InvRun(cfg, start, data);
      }
    }

    lemma QuietlyDid(a: Action, before: Parser, ctl: Control, data: string, p: nat)
      requires DidQuietly(a, before, ctl)
      ensures Did(a, before, ctl, NO_MARKS, data, p) && Kept(before.trace, ctl, NO_MARKS)
    {
      hide Emit, Joined;
    }

    /** A byte executed once as its state demands has gone where the run demands. */
    lemma Settled(cfg: Settings, start: Parser, data: string, p: nat, v: Parser, ctl: Control, m: Marks)
      requires p < |data| && Inv(cfg, v, true)
      requires Run(cfg, start, data[..p + 1]) == Exec(cfg, v, data[p], p)
      requires Did(Step(cfg, v, data[p]), v, ctl, m, data, p)
      ensures Went(cfg, start, data, ctl, p, m)
      ensures ctl == Reexecute ==> Rank(state) < Rank(v.f.state)
    {
      hide Exec, Step, Run, Inv, FailedAs, Emit, Joined, Rank;
      ExecOnce(cfg, v, data[p], p);
      InvStep(cfg, v, data[p]);
      AgainAlone(cfg, v, data[p]);
      var a := Step(cfg, v, data[p]);
      if a.Error? {
        ExecError(cfg, start, data, p, v);
      } else if a.Exit? {
        RunStays(cfg, start, data, p + 1);
      }
    }

    /** Executes a byte in a state that takes no block. */
    method DoByte(cfg: Settings, ghost start: Parser, data: string, p: nat, m: Marks) returns (ctl: Control, m': Marks)
      requires p < |data| && errno == OK && MarksFit(state, m, p) && Inv(cfg, ViewAt(m, data, p), true)
      requires state != HeaderField && state != HeaderValue && !TakesBody(state)
      requires Run(cfg, start, data[..p + 1]) == Exec(cfg, ViewAt(m, data, p), data[p], p)
      requires Reachable(cfg, start) && Told()
      modifies this
      ensures Went(cfg, start, data, ctl, p, m')
      ensures ctl == Reexecute ==> Rank(state) < Rank(old(state))
      ensures Told()
    {
      hide Reachable, PhaseAfter, Rank, Did, DidQuietly, Exec, Step, Run, NumbersFit, MatchersFit, GrammarHolds, Went,
        MarksFit, Emit, Joined, TraceOf, Quiet;
      ghost var v := ViewAt(m, data, p);
      if Quiet(state) {
        QuietMarks(m, data, p);
        ctl := DoQuiet(cfg, data, p);
        m' := NO_MARKS;
        QuietlyDid(Step(cfg, v, data[p]), v, ctl, data, p);
      } else {
        ctl, m' := DoMarked(cfg, data, p, m);
      }
      Settled(cfg, start, data, p, v, ctl, m');
      StaysTold(cfg, start, data, ctl, p, m', old(Joined(calls)));
    }

    /** Executes the byte at `p`, already counted, for the first time. */
    method DoState(cfg: Settings, ghost start: Parser, data: string, p: nat, m: Marks, ghost w: Parser)
      returns (ctl: Control, p': nat, m': Marks)
      requires p < |data| && errno == OK && MarksFit(state, m, p) && Reachable(cfg, start) && Reachable(cfg, w)
      requires Run(cfg, start, data[..p]) == Running(w) && Counted(w) == ViewAt(m, data, p)
      requires ParsingHeader(w.f.state) ==> w.f.nread < cfg.limit
      requires Told()
      modifies this
      ensures p <= p' && Went(cfg, start, data, ctl, p', m')
      ensures Told()
    {
      hide PhaseAfter, Exec, Step, Run, NumbersFit, MatchersFit, GrammarHolds, Went, MarksFit, Emit, Joined, TraceOf,
        Reachable, Inv;
      InvCounted(cfg, w);
      InvParts(cfg, ViewAt(m, data, p), true);
      CountedAgrees(cfg, start, data, p, w);
      if state == HeaderField {
        ctl, p', m' := DoHeaderField(cfg, start, data, p, m);
      } else if state == HeaderValue {
        ctl, p', m' := DoHeaderValue(cfg, start, data, p, m);
      } else if state == BodyIdentity {
        ctl, p', m' := DoBodyIdentity(cfg, start, data, p, m);
      } else if state == BodyIdentityEof {
        ctl, p', m' := DoBodyIdentityEof(cfg, start, data, p, m);
      } else if state == ChunkData {
        ctl, p', m' := DoChunkData(cfg, start, data, p, m);
      } else {
        p' := p;
        ctl, m' := DoByte(cfg, start, data, p, m);
      }
      if !Told() {
        assert Kept(old(Joined(calls)), ctl, m');
        StaysTold(cfg, start, data, ctl, p', m', old(Joined(calls)));
      }
    }

    /** How a call of `Execute` over `len` bytes ends that consumes `n` of them. */
    ghost predicate Ended(r: Result, len: nat, n: nat)
      reads this
    {
      match r
      case Running(q) => errno == OK && n == len && View() == q
      case Exited(q, k) => errno == OK && n == k && View() == q
      case Failed(_, _) => FailedAs(r, errno, n) && n < len
    }

    /** http_parser_execute: over any buffer, in any reachable state, the fields, the joined
        callbacks and the number of bytes consumed are those of the byte machine. */
    method Execute(cfg: Settings, data: string) returns (n: nat)
      requires errno == OK ==> Reachable(cfg, View())
      modifies this
      ensures old(errno) != OK ==> n == 0 && View() == old(View()) && errno == old(errno)
      ensures old(errno) == OK && data != "" ==> Ended(Run(cfg, old(View()), data), |data|, n)
      ensures old(errno) == OK && data != "" && errno == OK ==> Reachable(cfg, View())
      ensures old(errno) == OK && data == "" ==>
                match EndOfInput(old(View()))
                case Running(q) => errno == OK && n == 0 && View() == q
                case Exited(_, _) => false
                case Failed(e, _) => errno == e && n == 1 && View() == old(View())
      ensures old(Told()) ==> Told()
    {
      hide PhaseAfter, Exec, Step, Run, NumbersFit, MatchersFit, GrammarHolds, Went, MarksFit, Emit, Joined, TraceOf,
        Reachable, Inv;
      if errno != OK {
        // in an error state nothing is done
        return 0;
      }
      ReachableGrammar(cfg, View());
      if |data| == 0 {
        if EndOfInput(View()).Running? {
          EndObeys(cfg, View());
        }
        n := ExecuteEof();
        return;
      }
      ghost var start := View();
      var m := ResumeMarks(state);
      ResumeTrace(start, calls, data);
      assert data[..0] == "";
      RunNothing(cfg, start);
      var p := 0;
      while p < |data|
        invariant p <= |data| && errno == OK && MarksFit(state, m, p) && Told()
        invariant Run(cfg, start, data[..p]) == Running(ViewAt(m, data, p))
      {
        ghost var w := ViewAt(m, data, p);
        InvRun(cfg, start, data[..p]);
        if ParsingHeader(state) {
          var ok := CountHeaderSize(cfg, 1);
          if !ok {
            OverflowAt(cfg, start, data, p, w);
            return p;
          }
        }
        var ctl;
        ctl, p, m := DoState(cfg, start, data, p, m, w);
        // goto reexecute
        while ctl == Reexecute
          invariant Went(cfg, start, data, ctl, p, m) && Told()
          decreases ctl == Reexecute, Rank(state)
        {
          WentAgain(cfg, start, data, ctl, p, m);
          ctl, m := DoByte(cfg, start, data, p, m);
        }
        WentOn(cfg, start, data, ctl, p, m);
        if ctl == Fail {
          EndedReachable(cfg, start, data, p);
          return p;
        }
        if ctl == Leave {
          EndedReachable(cfg, start, data, p + 1);
          return p + 1;
        }
        p := p + 1;
      }
      CallLeftOver(m, data);
      assert data[..|data|] == data;
      EndedReachable(cfg, start, data, |data|);
      return |data|;
    }

    /** The callbacks for marks left over at the end of the buffer. */
    method CallLeftOver(m: Marks, data: string)
      requires MarksFit(state, m, |data|)
      modifies this`calls
      ensures View() == old(ViewAt(m, data, |data|))
    {
      hide MarksFit, Emit, Joined, TraceOf;
      OneMark(m, data);
      assert (if m.field.Some? then 1 else 0) + (if m.value.Some? then 1 else 0) + (if m.url.Some? then 1 else 0)
             + (if m.body.Some? then 1 else 0) + (if m.status.Some? then 1 else 0) <= 1;
      if m.field.Some? || m.value.Some? || m.url.Some? || m.body.Some? || m.status.Some? {
        CallDue(m, data, |data|);
      }
    }

    lemma EndedReachable(cfg: Settings, start: Parser, data: string, n: nat)
      requires Reachable(cfg, start) && Ended(Run(cfg, start, data), |data|, n)
      ensures errno == OK ==> Reachable(cfg, View()) && Told()
    {
      hide Exec, Run, Reachable, Joined;
      InvRun(cfg, start, data);
      if errno == OK {
        ReachableGrammar(cfg, View());
      }
    }

    lemma OneMark(m: Marks, data: string)
      requires MarksFit(state, m, |data|)
      ensures (if m.field.Some? then 1 else 0) + (if m.value.Some? then 1 else 0) + (if m.url.Some? then 1 else 0)
              + (if m.body.Some? then 1 else 0) + (if m.status.Some? then 1 else 0) <= 1
      ensures if m == NO_MARKS then ViewAt(m, data, |data|) == View() else Due(m, data, |data|).Some?
    {
    }

    lemma WentAgain(cfg: Settings, start: Parser, data: string, ctl: Control, p: nat, m: Marks)
      requires Went(cfg, start, data, ctl, p, m) && ctl == Reexecute
      ensures errno == OK && MarksFit(state, m, p) && Inv(cfg, ViewAt(m, data, p), true) && p < |data|
      ensures state != HeaderField && state != HeaderValue && !TakesBody(state)
      ensures Run(cfg, start, data[..p + 1]) == Exec(cfg, ViewAt(m, data, p), data[p], p)
    {
      hide Exec, Run, Inv, MarksFit, TraceOf, FailedAs;
    }

    lemma WentOn(cfg: Settings, start: Parser, data: string, ctl: Control, p: nat, m: Marks)
      requires Went(cfg, start, data, ctl, p, m) && ctl != Reexecute
      ensures p < |data|
      ensures ctl == Fail ==> Ended(Run(cfg, start, data), |data|, p)
      ensures ctl == Leave ==> Ended(Run(cfg, start, data), |data|, p + 1)
      ensures ctl == Advance ==> errno == OK && MarksFit(state, m, p + 1)
      ensures ctl == Advance ==> Run(cfg, start, data[..p + 1]) == Running(ViewAt(m, data, p + 1))
    {
      hide Exec, Run, Inv, MarksFit, TraceOf;
    }

    lemma OverflowAt(cfg: Settings, start: Parser, data: string, p: nat, w: Parser)
      requires p < |data| && Run(cfg, start, data[..p]) == Running(w)
      requires ParsingHeader(w.f.state) && w.f.nread + 1 > cfg.limit && errno == HeaderOverflow
      ensures Ended(Run(cfg, start, data), |data|, p)
    {
      hide Exec, Run;
      RunSnoc(cfg, start, data, p);
      RunStays(cfg, start, data, p + 1);
    }

    /** The end of the connection. */
    method ExecuteEof() returns (n: nat)
      requires errno == OK
      modifies this
      ensures match EndOfInput(old(View()))
              case Running(q) => errno == OK && n == 0 && View() == q
              case Exited(_, _) => false
              case Failed(e, _) => errno == e && n == 1 && View() == old(View())
    {
      hide Emit, Joined;
      if state == BodyIdentityEof {
        var keepAlive := ShouldKeepAlive();
        Call(MessageComplete(keepAlive));
        return 0;
      }
      if state == Dead || state == StartReqOrRes || state == StartRes || state == StartReq {
        return 0;
      }
      errno := InvalidEofState;
      return 1;
    }
  }
}
