/** What the grammar of callbacks amounts to: every sequence of callbacks a client sees is
    a list of complete messages and the beginning of one more.
 */
module HttpGrammar {
  import opened Options
  import opened HttpTypes
  import opened HttpStep
  import opened HttpInvariant
  import opened HttpRun

  // ---------------------------------------------------------------- messages as callbacks

  datatype HeaderPair = HeaderPair(name: string, value: string)

  datatype BodyShape =
    | NoBodyAt
    | PlainBody(text: string)
    | ChunkedBody(chunks: seq<string>, trailers: seq<HeaderPair>)

  /** A complete message; its line is the URL of a request or the status of a response, its head
      what the parser's public fields say at the end of the headers. */
  datatype Shape = Shape(line: Event, headers: seq<HeaderPair>, head: HeadView, body: BodyShape, keepAlive: bool)

  function HeaderEvents(hs: seq<HeaderPair>): seq<Event> {
    if hs == [] then []
    else HeaderEvents(hs[..|hs| - 1]) + [Data(Field, hs[|hs| - 1].name), Data(Value, hs[|hs| - 1].value)]
  }

  /** Each chunk is announced with its size, given as body bytes and closed. */
  function ChunkEvents(chunks: seq<string>): seq<Event> {
    if chunks == [] then []
    else
      var c := chunks[|chunks| - 1];
      ChunkEvents(chunks[..|chunks| - 1]) + [ChunkHeader(|c|), Data(Body, c), ChunkComplete]
  }

  function LineEvents(line: Event, hs: seq<HeaderPair>): seq<Event> {
    [MessageBegin, line] + HeaderEvents(hs)
  }

  function TrailerEvents(cs: seq<string>, ts: seq<HeaderPair>): seq<Event> {
    ChunkEvents(cs) + [ChunkHeader(0)] + HeaderEvents(ts)
  }

  function BodyEvents(b: BodyShape): seq<Event> {
    match b
    case NoBodyAt => []
    case PlainBody(t) => [Data(Body, t)]
    case ChunkedBody(cs, ts) => TrailerEvents(cs, ts) + [ChunkComplete]
  }

  function ShapeEvents(m: Shape): seq<Event> {
    LineEvents(m.line, m.headers) + [HeadersComplete(m.head)] + BodyEvents(m.body) + [MessageComplete(m.keepAlive)]
  }

  function AllEvents(ms: seq<Shape>): seq<Event> {
    if ms == [] then [] else AllEvents(ms[..|ms| - 1]) + ShapeEvents(ms[|ms| - 1])
  }

  predicate LegalLine(e: Event) { e.Data? && ((e.kind == Url && e.text != "") || e.kind == Status) }

  predicate LegalHeaders(hs: seq<HeaderPair>) { forall i :: 0 <= i < |hs| ==> hs[i].name != "" }

  predicate LegalChunks(cs: seq<string>) { forall i :: 0 <= i < |cs| ==> cs[i] != "" }

  predicate LegalBody(b: BodyShape) {
    match b
    case NoBodyAt => true
    case PlainBody(t) => t != ""
    case ChunkedBody(cs, ts) => LegalChunks(cs) && LegalHeaders(ts)
  }

  predicate LegalShape(m: Shape) { LegalLine(m.line) && LegalHeaders(m.headers) && LegalBody(m.body) }

  // ---------------------------------------------------------------- a message begun

  /** How much of the next message has been told. */
  datatype Draft =
    | NoDraft
    | DraftBegun
    | DraftHeaders(line: Event, hs: seq<HeaderPair>)
    | DraftName(line: Event, hs: seq<HeaderPair>, name: string)
    | DraftBody(line: Event, hs: seq<HeaderPair>, head: HeadView, body: BodyDraft)

  datatype BodyDraft =
    | Nothing
    | PlainPart(text: string)
    | Chunk(cs: seq<string>, size: nat)
    | ChunkPart(cs: seq<string>, size: nat, text: string)
    | Chunks(cs: seq<string>)
    | Trailers(cs: seq<string>, ts: seq<HeaderPair>)
    | TrailerName(cs: seq<string>, ts: seq<HeaderPair>, name: string)
    | Ended(cs: seq<string>, ts: seq<HeaderPair>)

  function BodyDraftEvents(b: BodyDraft): seq<Event> {
    match b
    case Nothing => []
    case PlainPart(t) => [Data(Body, t)]
    case Chunk(cs, n) => ChunkEvents(cs) + [ChunkHeader(n)]
    case ChunkPart(cs, n, t) => ChunkEvents(cs) + [ChunkHeader(n), Data(Body, t)]
    case Chunks(cs) => ChunkEvents(cs)
    case Trailers(cs, ts) => TrailerEvents(cs, ts)
    case TrailerName(cs, ts, n) => TrailerEvents(cs, ts) + [Data(Field, n)]
    case Ended(cs, ts) => TrailerEvents(cs, ts) + [ChunkComplete]
  }

  function DraftEvents(d: Draft): seq<Event> {
    match d
    case NoDraft => []
    case DraftBegun => [MessageBegin]
    case DraftHeaders(line, hs) => LineEvents(line, hs)
    case DraftName(line, hs, n) => LineEvents(line, hs) + [Data(Field, n)]
    case DraftBody(line, hs, head, b) => LineEvents(line, hs) + [HeadersComplete(head)] + BodyDraftEvents(b)
  }

  predicate LegalBodyDraft(b: BodyDraft) {
    match b
    case Nothing => true
    case PlainPart(t) => t != ""
    case Chunk(cs, n) => LegalChunks(cs) && n > 0
    case ChunkPart(cs, n, t) => LegalChunks(cs) && 0 < |t| <= n
    case Chunks(cs) => LegalChunks(cs) && cs != []
    case Trailers(cs, ts) => LegalChunks(cs) && LegalHeaders(ts)
    case TrailerName(cs, ts, n) => LegalChunks(cs) && LegalHeaders(ts) && n != ""
    case Ended(cs, ts) => LegalChunks(cs) && LegalHeaders(ts)
  }

  predicate LegalDraft(d: Draft) {
    match d
    case NoDraft => true
    case DraftBegun => true
    case DraftHeaders(line, hs) => LegalLine(line) && LegalHeaders(hs)
    case DraftName(line, hs, n) => LegalLine(line) && LegalHeaders(hs) && n != ""
    case DraftBody(line, hs, _, b) => LegalLine(line) && LegalHeaders(hs) && LegalBodyDraft(b)
  }

  function BodyPhase(b: BodyDraft): Phase {
    match b
    case Nothing => Headed
    case PlainPart(_) => Plain
    case Chunk(_, n) => InChunk(n, 0)
    case ChunkPart(_, n, t) => InChunk(n, |t|)
    case Chunks(_) => ChunkEnded
    case Trailers(_, ts) => if ts == [] then InTrailer else Valued(true)
    case TrailerName(_, _, _) => Name(true)
    case Ended(_, _) => ChunksEnded
  }

  function DraftPhase(d: Draft): Phase {
    match d
    case NoDraft => Idle
    case DraftBegun => Opened
    case DraftHeaders(_, hs) => if hs == [] then Line else Valued(false)
    case DraftName(_, _, _) => Name(false)
    case DraftBody(_, _, _, b) => BodyPhase(b)
  }

  // ---------------------------------------------------------------- one more callback

  function NextBody(b: BodyDraft, e: Event): BodyDraft {
    match b
    case Nothing => if e.Data? then PlainPart(e.text) else if e.ChunkHeader? then Announced([], e.size) else b
    case PlainPart(_) => b
    case Chunk(cs, n) => if e.Data? then ChunkPart(cs, n, e.text) else b
    case ChunkPart(cs, _, t) => Chunks(cs + [t])
    case Chunks(cs) => if e.ChunkHeader? then Announced(cs, e.size) else b
    case Trailers(cs, ts) => if e.Data? then TrailerName(cs, ts, e.text) else Ended(cs, ts)
    case TrailerName(cs, ts, n) => if e.Data? then Trailers(cs, ts + [HeaderPair(n, e.text)]) else b
    case Ended(_, _) => b
  }

  function Announced(cs: seq<string>, size: nat): BodyDraft { if size == 0 then Trailers(cs, []) else Chunk(cs, size) }

  function NextDraft(d: Draft, e: Event): Draft {
    match d
    case NoDraft => DraftBegun
    case DraftBegun => DraftHeaders(e, [])
    case DraftHeaders(line, hs) =>
      if e.Data? then DraftName(line, hs, e.text)
      else if e.HeadersComplete? then DraftBody(line, hs, e.head, Nothing)
      else d
    case DraftName(line, hs, n) => if e.Data? then DraftHeaders(line, hs + [HeaderPair(n, e.text)]) else d
    case DraftBody(line, hs, head, b) => DraftBody(line, hs, head, NextBody(b, e))
  }

  lemma HeaderSnoc(hs: seq<HeaderPair>, h: HeaderPair)
    ensures HeaderEvents(hs + [h]) == HeaderEvents(hs) + [Data(Field, h.name), Data(Value, h.value)]
  {
    assert (hs + [h])[..|hs|] == hs;
  }

  lemma ChunkSnoc(cs: seq<string>, c: string)
    ensures ChunkEvents(cs + [c]) == ChunkEvents(cs) + [ChunkHeader(|c|), Data(Body, c), ChunkComplete]
  {
    assert (cs + [c])[..|cs|] == cs;
  }

  /** What callback may come next, draft by draft. */
  predicate BodySays(b: BodyDraft, e: Event) {
    match b
    case Nothing => e == Data(Body, if e.Data? then e.text else "") || e.ChunkHeader?
    case PlainPart(_) => false
    case Chunk(_, _) => e.Data? && e.kind == Body
    case ChunkPart(_, n, t) => e == ChunkComplete && |t| == n
    case Chunks(_) => e.ChunkHeader?
    case Trailers(_, _) => (e.Data? && e.kind == Field) || e == ChunkComplete
    case TrailerName(_, _, _) => e.Data? && e.kind == Value
    case Ended(_, _) => false
  }

  lemma NextBodyPhase(b: BodyDraft, e: Event)
    requires LegalBodyDraft(b) && Next(BodyPhase(b), e).Some? && !e.MessageComplete?
    ensures BodySays(b, e)
    ensures LegalBodyDraft(NextBody(b, e)) && BodyPhase(NextBody(b, e)) == Next(BodyPhase(b), e).value
  {
  }

  lemma NextBodyEvents(b: BodyDraft, e: Event)
    requires BodySays(b, e)
    ensures BodyDraftEvents(NextBody(b, e)) == BodyDraftEvents(b) + [e]
  {
    hide ChunkEvents, HeaderEvents;
    if b.ChunkPart? {
      ChunkSnoc(b.cs, b.text);
    } else if b.TrailerName? {
      HeaderSnoc(b.ts, HeaderPair(b.name, e.text));
    }
    NoHeaders();
    NoChunks();
  }

  lemma NoHeaders()
    ensures HeaderEvents([]) == []
  {
  }

  lemma NoChunks()
    ensures ChunkEvents([]) == []
  {
  }

  predicate DraftSays(d: Draft, e: Event) {
    match d
    case NoDraft => e == MessageBegin
    case DraftBegun => true
    case DraftHeaders(_, _) => (e.Data? && e.kind == Field) || e.HeadersComplete?
    case DraftName(_, _, _) => e.Data? && e.kind == Value
    case DraftBody(_, _, _, b) => BodySays(b, e)
  }

  lemma NextDraftPhase(d: Draft, e: Event)
    requires LegalDraft(d) && Next(DraftPhase(d), e).Some? && !e.MessageComplete?
    ensures DraftSays(d, e)
    ensures LegalDraft(NextDraft(d, e)) && DraftPhase(NextDraft(d, e)) == Next(DraftPhase(d), e).value
  {
    hide BodySays, LegalBodyDraft, BodyPhase, NextBody;
    if d.DraftBody? {
      NextBodyPhase(d.body, e);
    } else {
      FreshBody();
    }
  }

  lemma FreshBody()
    ensures LegalBodyDraft(Nothing) && BodyPhase(Nothing) == Headed
  {
  }

  lemma NextDraftEvents(d: Draft, e: Event)
    requires DraftSays(d, e)
    ensures DraftEvents(NextDraft(d, e)) == DraftEvents(d) + [e]
  {
    hide HeaderEvents, BodySays, BodyDraftEvents, NextBody;
    NoHeaders();
    if d.DraftBody? {
      NextBodyEvents(d.body, e);
    } else if d.DraftName? {
      HeaderSnoc(d.hs, HeaderPair(d.name, e.text));
    } else if d.DraftHeaders? {
      NoBodyYet();
    }
  }

  lemma NoBodyYet()
    ensures BodyDraftEvents(Nothing) == []
  {
  }

  /** The message a draft and the last callback make. */
  function Completed(d: Draft, keepAlive: bool): Shape
    requires d.DraftBody?
  {
    var body := if d.body.PlainPart? then PlainBody(d.body.text)
                else if d.body.Ended? then ChunkedBody(d.body.cs, d.body.ts)
                else NoBodyAt;
    Shape(d.line, d.hs, d.head, body, keepAlive)
  }

  lemma CompletedEvents(d: Draft, keepAlive: bool)
    requires LegalDraft(d) && Next(DraftPhase(d), MessageComplete(keepAlive)).Some?
    ensures d.DraftBody? && LegalShape(Completed(d, keepAlive)) && Completed(d, keepAlive).keepAlive == keepAlive
    ensures Next(DraftPhase(d), MessageComplete(keepAlive)) == Some(AfterMessage(keepAlive))
    ensures ShapeEvents(Completed(d, keepAlive)) == DraftEvents(d) + [MessageComplete(keepAlive)]
  {
  }

  // ---------------------------------------------------------------- whole traces

  datatype Told = Told(ms: seq<Shape>, draft: Draft)

  /** The messages a trace tells, and the one it has begun. */
  function Dissect(trace: seq<Event>): Told {
    if trace == [] then Told([], NoDraft)
    else
      var t, e := Dissect(trace[..|trace| - 1]), trace[|trace| - 1];
      if !e.MessageComplete? then t.(draft := NextDraft(t.draft, e))
      else if t.draft.DraftBody? then Told(t.ms + [Completed(t.draft, e.keepAlive)], NoDraft)
      else t
  }

  /** Every message but the last was one after which the connection stays open; after one
      that closes the connection nothing is told. */
  predicate KeptAlive(t: Told) {
    && (forall i :: 0 <= i < |t.ms| - 1 ==> t.ms[i].keepAlive)
    && (t.ms != [] && !t.ms[|t.ms| - 1].keepAlive ==> t.draft == NoDraft)
  }

  function ToldPhase(t: Told): Phase {
    if t.draft == NoDraft && t.ms != [] && !t.ms[|t.ms| - 1].keepAlive then Closed else DraftPhase(t.draft)
  }

  /** A trace is these complete messages and the beginning of one more. */
  predicate Tells(trace: seq<Event>, t: Told) {
    && trace == AllEvents(t.ms) + DraftEvents(t.draft)
    && (forall i :: 0 <= i < |t.ms| ==> LegalShape(t.ms[i]))
    && LegalDraft(t.draft) && KeptAlive(t)
  }

  /** Every trace that obeys the grammar is complete messages and the beginning of one more. */
  lemma {:induction false} TraceIsMessages(trace: seq<Event>)
    requires PhaseAfter(trace).Some?
    ensures Tells(trace, Dissect(trace)) && PhaseAfter(trace) == Some(ToldPhase(Dissect(trace)))
  {
    hide Tells, Next, NextDraft, Completed, ToldPhase;
    if trace == [] {
      NothingTold();
    } else {
      var n := |trace| - 1;
      TraceIsMessages(trace[..n]);
      assert trace == trace[..n] + [trace[n]];
      if trace[n].MessageComplete? {
        TellsDone(trace[..n], Dissect(trace[..n]), trace[n].keepAlive);
      } else {
        TellsMore(trace[..n], Dissect(trace[..n]), trace[n]);
      }
    }
  }

  lemma NothingTold()
    ensures Tells([], Told([], NoDraft)) && ToldPhase(Told([], NoDraft)) == Idle
  {
  }

  lemma TellsMore(trace: seq<Event>, t: Told, e: Event)
    requires Tells(trace, t) && Next(ToldPhase(t), e).Some? && !e.MessageComplete?
    ensures var t' := t.(draft := NextDraft(t.draft, e));
            Tells(trace + [e], t') && Some(ToldPhase(t')) == Next(ToldPhase(t), e)
  {
    hide LegalShape, LegalDraft, DraftEvents, AllEvents, NextDraft, DraftPhase, DraftSays, Next;
    ClosedSaysNothing(e);
    NextDraftPhase(t.draft, e);
    NextDraftEvents(t.draft, e);
    NextDraftBegun(t.draft, e);
  }

  lemma TellsDone(trace: seq<Event>, t: Told, keepAlive: bool)
    requires Tells(trace, t) && Next(ToldPhase(t), MessageComplete(keepAlive)).Some?
    ensures t.draft.DraftBody?
    ensures var t' := Told(t.ms + [Completed(t.draft, keepAlive)], NoDraft);
            && Tells(trace + [MessageComplete(keepAlive)], t')
            && Some(ToldPhase(t')) == Next(ToldPhase(t), MessageComplete(keepAlive))
  {
    hide LegalShape, LegalDraft, DraftEvents, ShapeEvents, DraftPhase, Next, Completed, AllEvents, KeptAlive;
    ClosedSaysNothing(MessageComplete(keepAlive));
    CompletedEvents(t.draft, keepAlive);
    EmptyDraft();
    OneMoreMessage(t, Completed(t.draft, keepAlive));
  }

  lemma OneMoreMessage(t: Told, m: Shape)
    requires KeptAlive(t) && ToldPhase(t) != Closed
    ensures AllEvents(t.ms + [m]) == AllEvents(t.ms) + ShapeEvents(m)
    ensures KeptAlive(Told(t.ms + [m], NoDraft))
  {
    hide ShapeEvents;
    var ms := t.ms + [m];
    assert ms[..|t.ms|] == t.ms;
  }

  lemma EmptyDraft()
    ensures DraftEvents(NoDraft) == [] && LegalDraft(NoDraft) && DraftPhase(NoDraft) == Idle
  {
  }

  lemma ClosedSaysNothing(e: Event)
    ensures Next(Closed, e) == None
  {
  }

  lemma NextDraftBegun(d: Draft, e: Event)
    requires Next(DraftPhase(d), e).Some? && !e.MessageComplete?
    ensures NextDraft(d, e) != NoDraft
  {
  }

  predicate TellsMessages(r: Result) { !r.Failed? && Tells(r.p.trace, Dissect(r.p.trace)) }

  /** Whatever a new parser is fed, its client has been told complete messages and the
      beginning of one more; on an error, by the bytes before the one that is refused. */
  lemma RunTellsMessages(cfg: Settings, kind: ParserType, data: string)
    ensures var p := Parser(InitialFields(kind), []);
            var r := Run(cfg, p, data);
            if r.Failed? then r.at < |data| && TellsMessages(Run(cfg, p, data[..r.at]))
            else TellsMessages(r)
  {
    hide Run, Reachable, TellsMessages;
    InitiallyReachable(cfg, kind);
    var p := Parser(InitialFields(kind), []);
    var r := Run(cfg, p, data);
    if r.Failed? {
      RunFailsAt(cfg, p, data);
      ReachedTells(cfg, p, data[..r.at]);
    } else {
      ReachedTells(cfg, p, data);
    }
  }

  lemma ReachedTells(cfg: Settings, p: Parser, data: string)
    requires Reachable(cfg, p) && !Run(cfg, p, data).Failed?
    ensures TellsMessages(Run(cfg, p, data))
  {
    hide Run, Dissect, PhaseAfter, Tells, ToldPhase;
    InvRun(cfg, p, data);
    TraceIsMessages(Run(cfg, p, data).p.trace);
  }

  // ---------------------------------------------------------------- the end of the connection

  /** A connection that ends without an error has told complete messages only; of those the
      last one may be a response that goes on to the end of the connection. */
  lemma EndTellsMessages(cfg: Settings, p: Parser)
    requires Reachable(cfg, p) && EndOfInput(p).Running?
    ensures var trace := EndOfInput(p).p.trace;
            Tells(trace, Dissect(trace)) && Dissect(trace).draft == NoDraft
  {
    hide Dissect, PhaseAfter, Tells, EndOfInput;
    EndObeys(cfg, p);
    TraceIsMessages(EndOfInput(p).p.trace);
  }

  /** After a message that closes the connection the parser says nothing more: it passes over
      line ends and refuses everything else. */
  lemma {:induction false} ClosedStaysSilent(cfg: Settings, p: Parser, data: string)
    requires p.f.state == Dead && p.f.nread + |data| <= cfg.limit
    ensures var r := Run(cfg, p, data);
            if forall i :: 0 <= i < |data| ==> data[i] == CR || data[i] == LF
            then r == Running(p.(f := p.f.(nread := p.f.nread + |data|)))
            else r.Failed? && r.e == ClosedConnection
  {
    hide Byte, Exec, Step;
    if data != [] {
      var n := |data| - 1;
      ClosedStaysSilent(cfg, p, data[..n]);
      if forall i :: 0 <= i < n ==> data[i] == CR || data[i] == LF {
        assert forall i :: 0 <= i < n ==> data[..n][i] == data[i];
        DeadByte(cfg, p.(f := p.f.(nread := p.f.nread + n)), data[n], n);
      } else {
        var i :| 0 <= i < n && data[i] != CR && data[i] != LF;
        assert data[..n][i] == data[i];
      }
    }
  }

  lemma DeadByte(cfg: Settings, p: Parser, ch: char, at: nat)
    requires p.f.state == Dead && p.f.nread < cfg.limit
    ensures Byte(cfg, p, ch, at) ==
              if ch == CR || ch == LF then Running(p.(f := p.f.(nread := p.f.nread + 1)))
              else Failed(ClosedConnection, at)
  {
  }
}
