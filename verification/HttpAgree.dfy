/** Steps of a run as the block-wise code needs them: bytes that are executed before they
    are counted, several body bytes at a time, and what a failure of the run means.
 */
module HttpAgree {
  import opened Options
  import opened HttpTypes
  import opened HttpStep
  import opened HttpInvariant
  import opened HttpRun

  /** The run over the first `p` bytes has come to `v`; if `v` has counted more header bytes
      than allowed, the run has failed for that reason. */
  ghost predicate Agrees(cfg: Settings, start: Parser, data: string, p: nat, v: Parser)
    requires p <= |data|
  {
    var r := Run(cfg, start, data[..p]);
    if v.f.nread <= cfg.limit then r == Running(v) else r.Failed? && r.e == HeaderOverflow
  }

  /** What the parser can report that counts the bytes of a header block late: the overflow,
      or a byte of the same block that is refused. */
  predicate LateError(e: Errno) { e == HeaderOverflow || e == InvalidHeaderToken || e == InvalidContentLength }

  /** The parser's error `errno` at byte `p` is the error of the run. If the run fails by
      header overflow the parser may fail later in the same block. */
  predicate FailedAs(r: Result, errno: Errno, p: nat) {
    && r.Failed? && errno != OK
    && if r.e == HeaderOverflow then LateError(errno) && r.at <= p else r.e == errno && r.at == p
  }

  lemma AgreesNext(cfg: Settings, start: Parser, data: string, p: nat, v: Parser)
    requires p < |data| && Agrees(cfg, start, data, p, v) && ParsingHeader(v.f.state)
    ensures v.f.nread < cfg.limit ==> Run(cfg, start, data[..p + 1]) == Exec(cfg, Counted(v), data[p], p)
    ensures v.f.nread >= cfg.limit ==>
              Run(cfg, start, data[..p + 1]).Failed? && Run(cfg, start, data[..p + 1]).e == HeaderOverflow
  {
    hide Exec;
    RunSnoc(cfg, start, data, p);
  }

  /** One step of Exec. */
  lemma ExecOnce(cfg: Settings, p: Parser, ch: char, at: nat)
    ensures var a := Step(cfg, p, ch);
            Exec(cfg, p, ch, at) ==
            if a.Error? then Failed(a.e, at)
            else if a.Break? then Running(After(p, a))
            else if a.Exit? then Exited(After(p, a), at + 1)
            else Exec(cfg, After(p, a), ch, at)
  {
    hide Step;
  }

  /** A header byte that is consumed, whether or not the count already exceeds the limit. */
  lemma AgreesBreak(cfg: Settings, start: Parser, data: string, p: nat, v: Parser)
    requires p < |data| && Agrees(cfg, start, data, p, v) && ParsingHeader(v.f.state)
    requires var a := Step(cfg, Counted(v), data[p]); a.Break? && a.f.nread == v.f.nread + 1
    ensures Agrees(cfg, start, data, p + 1, After(Counted(v), Step(cfg, Counted(v), data[p])))
  {
    hide Exec, Step;
    AgreesNext(cfg, start, data, p, v);
    ExecOnce(cfg, Counted(v), data[p], p);
  }

  /** A header byte that is an error. */
  lemma AgreesError(cfg: Settings, start: Parser, data: string, p: nat, v: Parser)
    requires p < |data| && Agrees(cfg, start, data, p, v) && ParsingHeader(v.f.state)
    requires Step(cfg, Counted(v), data[p]).Error? && LateError(Step(cfg, Counted(v), data[p]).e)
    ensures FailedAs(Run(cfg, start, data), Step(cfg, Counted(v), data[p]).e, p)
  {
    hide Exec, Step, Run;
    AgreesNext(cfg, start, data, p, v);
    ExecOnce(cfg, Counted(v), data[p], p);
    RunFailsAt(cfg, start, data[..p + 1]);
    RunStays(cfg, start, data, p + 1);
  }

  /** A run that has counted too many header bytes has failed. */
  lemma AgreesOverflow(cfg: Settings, start: Parser, data: string, p: nat, v: Parser, at: nat)
    requires p <= |data| && Agrees(cfg, start, data, p, v) && v.f.nread > cfg.limit
    requires p <= at + 1
    ensures FailedAs(Run(cfg, start, data), HeaderOverflow, at)
  {
    hide Run;
    RunFailsAt(cfg, start, data[..p]);
    RunStays(cfg, start, data, p);
  }

  /** A byte whose error is already known. */
  lemma ExecError(cfg: Settings, start: Parser, data: string, p: nat, v: Parser)
    requires p < |data| && Run(cfg, start, data[..p + 1]) == Exec(cfg, v, data[p], p)
    requires Step(cfg, v, data[p]).Error? && Step(cfg, v, data[p]).e != OK
    ensures FailedAs(Run(cfg, start, data), Step(cfg, v, data[p]).e, p)
  {
    hide Exec, Step, Run;
    ExecOnce(cfg, v, data[p], p);
    RunStays(cfg, start, data, p + 1);
  }

  /** A byte is never executed again in a state that takes a block. */
  lemma AgainAlone(cfg: Settings, p: Parser, ch: char)
    ensures var a := Step(cfg, p, ch);
            a.Again? ==> a.f.state != HeaderField && a.f.state != HeaderValue && !TakesBody(a.f.state)
  {
  }

  lemma InvParts(cfg: Settings, p: Parser, counted: bool)
    requires Inv(cfg, p, counted)
    ensures NumbersFit(cfg, p.f, counted) && MatchersFit(p.f) && GrammarHolds(p) && PhaseAfter(p.trace).Some?
    ensures p.f.state == HeaderValue ==> ValueIndexFits(p.f.headerState, p.f.index)
    ensures p.f.nread <= cfg.limit
  {
  }

  lemma ReachableGrammar(cfg: Settings, p: Parser)
    requires Reachable(cfg, p)
    ensures GrammarHolds(p) && PhaseAfter(p.trace).Some?
  {
  }

  /** Executing a byte that has just been counted is the next step of the run. */
  lemma CountedAgrees(cfg: Settings, start: Parser, data: string, p: nat, w: Parser)
    requires p < |data| && Run(cfg, start, data[..p]) == Running(w)
    requires ParsingHeader(w.f.state) ==> w.f.nread < cfg.limit
    ensures Run(cfg, start, data[..p + 1]) == Exec(cfg, Counted(w), data[p], p)
    ensures ParsingHeader(w.f.state) ==>
              Agrees(cfg, start, data, p, Counted(w).(f := Counted(w).f.(nread := Counted(w).f.nread - 1)))
    ensures !ParsingHeader(w.f.state) ==> Counted(w) == w
  {
    hide Exec, Run;
    RunSnoc(cfg, start, data, p);
    if ParsingHeader(w.f.state) {
      assert Counted(w).(f := Counted(w).f.(nread := Counted(w).f.nread - 1)) == w;
    }
  }

  lemma RunNothing(cfg: Settings, p: Parser)
    ensures Run(cfg, p, "") == Running(p)
  {
  }

  // ---------------------------------------------------------------- body bytes

  predicate TakesBody(s: State) { s == BodyIdentity || s == BodyIdentityEof || s == ChunkData }

  /** The parser after `n` body bytes that are not the last ones. */
  function AfterBody(v: Parser, bytes: string): Parser {
    if bytes == "" then v
    else Parser(if v.f.state == BodyIdentityEof || v.f.contentLength < |bytes| then v.f
                else v.f.(contentLength := v.f.contentLength - |bytes|),
                Emit(v.trace, Data(Body, bytes)))
  }

  lemma {:induction false} RunBody(cfg: Settings, start: Parser, data: string, p: nat, q: nat, v: Parser)
    requires p <= q <= |data| && TakesBody(v.f.state)
    requires v.f.state == BodyIdentityEof || q - p < v.f.contentLength
    requires Run(cfg, start, data[..p]) == Running(v)
    ensures Run(cfg, start, data[..q]) == Running(AfterBody(v, data[p..q]))
    decreases q - p
  {
    hide Exec, Emit, Run;
    if p == q {
      assert data[p..q] == "";
    } else {
      RunBody(cfg, start, data, p, q - 1, v);
      var w := AfterBody(v, data[p..q - 1]);
      RunSnoc(cfg, start, data, q - 1);
      assert data[..q - 1 + 1] == data[..q];
      ExecOnce(cfg, w, data[q - 1], q - 1);
      assert data[p..q] == data[p..q - 1] + [data[q - 1]];
      BodyByte(w, data[q - 1]);
      assert Step(cfg, w, data[q - 1]) == StepBodyByte(w.f, data[q - 1]);
      if q - 1 > p {
        EmitTwice(v.trace, Body, data[p..q - 1], [data[q - 1]]);
      } else {
        assert data[p..q - 1] == "" && data[p..q] == [data[q - 1]];
      }
    }
  }

  function StepBodyByte(f: Fields, ch: char): Action {
    if f.state == ChunkData then StepChunk(f, ch) else StepBody(f, ch)
  }

  lemma BodyByte(w: Parser, ch: char)
    requires TakesBody(w.f.state)
    requires w.f.state == BodyIdentityEof || w.f.contentLength > 1
    ensures StepBodyByte(w.f, ch) ==
            Break(if w.f.state == BodyIdentityEof then w.f else w.f.(contentLength := w.f.contentLength - 1),
                  Some(Data(Body, [ch])))
  {
  }

  /** Two data callbacks in a row, the first of them for `data[p..q - 1]`, if that is not empty. */
  lemma EmitLast(trace: seq<Event>, data: string, p: nat, q: nat)
    requires p < q <= |data|
    ensures Emit(if q - 1 == p then trace else Emit(trace, Data(Body, data[p..q - 1])), Data(Body, [data[q - 1]]))
            == Emit(trace, Data(Body, data[p..q]))
  {
    hide Emit;
    assert data[p..q] == data[p..q - 1] + [data[q - 1]];
    if q - 1 == p {
      assert data[p..q] == [data[q - 1]];
    } else {
      EmitTwice(trace, Body, data[p..q - 1], [data[q - 1]]);
    }
  }

  /** The last byte of an identity body is executed again as the end of the message. */
  lemma RunLastBody(cfg: Settings, start: Parser, data: string, p: nat, q: nat, v: Parser)
    requires Reachable(cfg, start)
    requires p < q <= |data| && v.f.state == BodyIdentity && v.f.contentLength == q - p
    requires Run(cfg, start, data[..p]) == Running(v)
    ensures var w := Parser(v.f.(contentLength := 0, state := MessageDone), Emit(v.trace, Data(Body, data[p..q])));
            Run(cfg, start, data[..q]) == Exec(cfg, w, data[q - 1], q - 1) && Inv(cfg, w, true)
  {
    hide Exec, Emit, Run, Inv;
    RunBody(cfg, start, data, p, q - 1, v);
    var u := AfterBody(v, data[p..q - 1]);
    RunSnoc(cfg, start, data, q - 1);
    assert data[..q - 1 + 1] == data[..q];
    ExecOnce(cfg, u, data[q - 1], q - 1);
    EmitLast(v.trace, data, p, q);
    assert Step(cfg, u, data[q - 1]) == StepBody(u.f, data[q - 1]);
    assert u.f.contentLength == 1;
    InvRun(cfg, start, data[..q - 1]);
    InvCounted(cfg, u);
    InvStep(cfg, u, data[q - 1]);
  }

  lemma RunLastChunk(cfg: Settings, start: Parser, data: string, p: nat, q: nat, v: Parser)
    requires p < q <= |data| && v.f.state == ChunkData && v.f.contentLength == q - p
    requires Run(cfg, start, data[..p]) == Running(v)
    ensures Run(cfg, start, data[..q]) ==
            Running(Parser(v.f.(contentLength := 0, state := ChunkDataAlmostDone),
                Emit(v.trace, Data(Body, data[p..q]))))
  {
    hide Exec, Emit, Run;
    RunBody(cfg, start, data, p, q - 1, v);
    var u := AfterBody(v, data[p..q - 1]);
    RunSnoc(cfg, start, data, q - 1);
    assert data[..q - 1 + 1] == data[..q];
    ExecOnce(cfg, u, data[q - 1], q - 1);
    EmitLast(v.trace, data, p, q);
    assert Step(cfg, u, data[q - 1]) == StepChunk(u.f, data[q - 1]);
  }

  /** A run that has not counted too many header bytes is running. */
  lemma AgreesWithin(cfg: Settings, start: Parser, data: string, p: nat, v: Parser)
    requires p <= |data| && Agrees(cfg, start, data, p, v) && v.f.nread <= cfg.limit
    ensures Run(cfg, start, data[..p]) == Running(v)
  {
    hide Run;
  }

  /** The next header byte is one too many. */
  lemma AgreesOverflowNext(cfg: Settings, start: Parser, data: string, p: nat, v: Parser)
    requires p < |data| && Agrees(cfg, start, data, p, v) && ParsingHeader(v.f.state) && v.f.nread >= cfg.limit
    ensures FailedAs(Run(cfg, start, data), HeaderOverflow, p)
  {
    hide Run;
    AgreesNext(cfg, start, data, p, v);
    RunFailsAt(cfg, start, data[..p + 1]);
    RunStays(cfg, start, data, p + 1);
  }

  lemma TooMany(cfg: Settings, start: Parser, data: string, p: nat, v: Parser, w: Parser)
    requires p < |data| && Agrees(cfg, start, data, p, v) && ParsingHeader(v.f.state)
    requires v.f.nread >= cfg.limit && w.f.nread > cfg.limit
    ensures Agrees(cfg, start, data, p + 1, w)
  {
    hide Run;
    AgreesNext(cfg, start, data, p, v);
  }

  // ---------------------------------------------------------------- header names

  /** The parser after a token character of a header name. */
  function AfterNameChar(v: Parser, ch: char): Parser {
    var hs := v.f.headerState;
    Parser(v.f.(headerState := NameStep(hs, v.f.index, TokenChar(ch)),
                index := if NameMatching(hs) then v.f.index + 1 else v.f.index,
                nread := v.f.nread + 1),
           Emit(v.trace, Data(Field, [ch])))
  }

  lemma NameCharAgrees(cfg: Settings, start: Parser, data: string, p: nat, v: Parser)
    requires p < |data| && v.f.state == HeaderField && TokenChar(data[p]) != '\0'
    requires Agrees(cfg, start, data, p, v)
    ensures Agrees(cfg, start, data, p + 1, AfterNameChar(v, data[p]))
  {
    hide Emit, Exec, Run, Agrees, TokenChar, NameStep;
    assert Step(cfg, Counted(v), data[p]) == StepHeaderName(Counted(v).f, data[p]);
    AgreesBreak(cfg, start, data, p, v);
  }

  lemma NameCharFits(f: Fields, ch: char)
    requires MatchersFit(f) && f.state == HeaderField && TokenChar(ch) != '\0'
    ensures var hs := f.headerState;
            MatchersFit(f.(headerState := NameStep(hs, f.index, TokenChar(ch)),
                           index := if NameMatching(hs) then f.index + 1 else f.index))
  {
    MatchersName(f, ch);
  }

  // ---------------------------------------------------------------- header values

  /** The parser after a character of a header value that leaves the value state at `w`. */
  function AfterValueChar(v: Parser, w: ValueState, ch: char): Parser {
    Parser(WithValue(v.f, w).(nread := v.f.nread + 1), Emit(v.trace, Data(Value, [ch])))
  }

  predicate InsideValue(ch: char) { ch != CR && ch != LF && IsHeaderChar(ch) }

  lemma ValueErrors(v: ValueState, ch: char)
    ensures ValueStep(v, ch).Bad? ==> ValueStep(v, ch).e == InvalidContentLength
  {
  }

  lemma ValueCharAgrees(cfg: Settings, start: Parser, data: string, p: nat, v: Parser)
    requires p < |data| && v.f.state == HeaderValue && InsideValue(data[p])
    requires Agrees(cfg, start, data, p, v)
    ensures match ValueStep(ValueOf(v.f), data[p])
            case Fine(w) => Agrees(cfg, start, data, p + 1, AfterValueChar(v, w, data[p]))
            case Bad(e) => FailedAs(Run(cfg, start, data), e, p)
  {
    hide Emit, Exec, Run, Agrees, ValueStep, FailedAs;
    assert Step(cfg, Counted(v), data[p]) == StepInValue(Counted(v).f, data[p]);
    assert ValueOf(Counted(v).f) == ValueOf(v.f);
    match ValueStep(ValueOf(v.f), data[p])
    case Fine(w) => AgreesBreak(cfg, start, data, p, v);
    case Bad(e) =>
      ValueErrors(ValueOf(v.f), data[p]);
      AgreesError(cfg, start, data, p, v);
  }

  lemma ValueCharRefused(cfg: Settings, start: Parser, data: string, p: nat, v: Parser)
    requires p < |data| && v.f.state == HeaderValue && !IsHeaderChar(data[p])
    requires Agrees(cfg, start, data, p, v)
    ensures FailedAs(Run(cfg, start, data), InvalidHeaderToken, p)
  {
    hide Emit, Exec, Run, Agrees, ValueStep, FailedAs;
    assert Step(cfg, Counted(v), data[p]) == StepInValue(Counted(v).f, data[p]);
    AgreesError(cfg, start, data, p, v);
  }

  /** The carriage return that ends a value. */
  lemma ValueEndsCR(cfg: Settings, start: Parser, data: string, p: nat, v: Parser)
    requires p < |data| && v.f.state == HeaderValue && data[p] == CR && v.f.nread < cfg.limit
    requires Agrees(cfg, start, data, p, v)
    ensures Run(cfg, start, data[..p + 1]) ==
            Running(Parser(v.f.(state := HeaderAlmostDone, nread := v.f.nread + 1), v.trace))
  {
    hide Emit, Exec, Run, Agrees;
    assert Step(cfg, Counted(v), data[p]) == StepHeaderValue(Counted(v).f, data[p]);
    AgreesBreak(cfg, start, data, p, v);
    AgreesWithin(cfg, start, data, p + 1, After(Counted(v), Step(cfg, Counted(v), data[p])));
  }

  /** The line feed that ends a value is executed again. */
  lemma ValueEndsLF(cfg: Settings, start: Parser, data: string, p: nat, v: Parser)
    requires Reachable(cfg, start)
    requires p < |data| && v.f.state == HeaderValue && data[p] == LF && v.f.nread < cfg.limit
    requires Agrees(cfg, start, data, p, v)
    ensures var w := Parser(v.f.(state := HeaderAlmostDone, nread := v.f.nread + 1), v.trace);
            Run(cfg, start, data[..p + 1]) == Exec(cfg, w, data[p], p) && Inv(cfg, w, true)
  {
    hide Emit, Exec, Run, Inv;
    AgreesNext(cfg, start, data, p, v);
    assert Step(cfg, Counted(v), data[p]) == StepHeaderValue(Counted(v).f, data[p]);
    ExecOnce(cfg, Counted(v), data[p], p);
    InvRun(cfg, start, data[..p]);
    InvCounted(cfg, v);
    InvStep(cfg, Counted(v), data[p]);
  }
}
