/** Trailers: the header lines behind the last chunk of a chunked body (RFC 7230 section 4.1.2). They
    are read like those of a head, and what they ask for still counts for the connection.
 */
module HttpTrailers {
  import opened Sequences
  import opened HttpTypes
  import opened HttpStep
  import opened HttpRun
  import opened HttpAgree
  import opened HttpReads
  import opened HttpValues
  import opened HttpBodies
  import opened HttpHeads

  /** The parser behind the empty line that ends the trailers. */
  function TrailerOver(q: Parser, n: nat): Parser {
    MessageOver(Parser(q.f.(nread := q.f.nread + n, state := MessageDone), q.trace + [ChunkComplete]))
  }

  lemma BlankTrailerReads(cfg: Settings, q: Parser, eol: string)
    requires q.f.state == HeaderFieldStart && Trailing in q.f.flags && IsEol(eol) && Room(cfg, q, |eol|)
    ensures Run(cfg, q, eol) == MessageEnds(TrailerOver(q, |eol|), |eol|)
  {
    hide Run, Step, Exec;
    if eol == CRLF {
      TrailerEndReads(cfg, q);
    } else {
      ReadsNothing(cfg, q);
      assert eol == "" + [LF];
      LastByte(cfg, q, "", q, LF);
      StepOfBlankLine(cfg, Counted(q));
      ExecOnce(cfg, Counted(q), LF, 0);
      var b := After(Counted(q), Step(cfg, Counted(q), LF));
      StepOfHeaderEnd(cfg, b);
      ExecOnce(cfg, b, LF, 0);
      MessageDoneExec(cfg, After(b, Step(cfg, b, LF)), LF, 0);
    }
  }

  function TrailerText(chunks: seq<Chunk>, last: Chunk, hs: seq<Header>, eol: string): string {
    ChunksText(chunks) + SizeLine(last) + HeadersText(hs, eol) + eol
  }

  function TrailerEvents(chunks: seq<Chunk>, hs: seq<Header>): seq<Event> {
    ChunksEvents(chunks) + [ChunkHeader(0)] + HeadersEvents(hs) + [ChunkComplete]
  }

  predicate AreTrailers(cfg: Settings, chunks: seq<Chunk>, last: Chunk, hs: seq<Header>, eol: string) {
    && AreChunks(cfg, chunks) && IsChunk(cfg, last) && last.data == "" && AreHeaders(hs) && IsEol(eol)
    && |HeadersText(hs, eol)| + |eol| <= cfg.limit
  }

  /** The connection stays open behind a chunked message with the flags `flags` and these trailers. */
  predicate KeepsTrailing(f: Fields, hs: seq<Header>) {
    if f.httpMajor > 0 && f.httpMinor > 0 then Close !in f.flags && !Asks(hs, CLOSE)
    else KeepAlive in f.flags || Asks(hs, KEEP_ALIVE)
  }

  /** The parser behind a chunked body with trailers. */
  function BehindTrailers(p: Parser, chunks: seq<Chunk>, hs: seq<Header>, eol: string): Parser
    requires AreHeaders(hs)
  {
    TrailerOver(AfterHeaders(AfterSizeLine(AfterChunks(p, chunks), 0), hs, eol), |eol|)
  }

  lemma TrailerTells(p: Parser, chunks: seq<Chunk>, hs: seq<Header>, eol: string)
    requires Chunked in p.f.flags && AreHeaders(hs)
    ensures var q := BehindTrailers(p, chunks, hs, eol);
            && q.trace == p.trace + TrailerEvents(chunks, hs) + [MessageComplete(KeepsTrailing(p.f, hs))]
            && q.f.state == (if !KeepsTrailing(p.f, hs) then Dead else if p.f.kind == Request then StartReq
                else StartRes)
            && q.f.upgrade == p.f.upgrade
  {
    hide AreHeaders, Asks, AfterHeaders, ChunksEvents, HeadersEvents, HeadersFlags, AfterSizeLine, AfterChunks;
    var a := AfterSizeLine(AfterChunks(p, chunks), 0);
    ZeroChunkIs(p, chunks);
    HeadersKeep(a, hs, eol);
    HeadersMean(hs);
    var q := AfterHeaders(a, hs, eol);
    assert q.trace + [ChunkComplete] == p.trace + TrailerEvents(chunks, hs);
    StillKept(p.f, q.f, hs, q.f.nread + |eol|);
  }

  /** The parser behind the zero chunk. */
  lemma ZeroChunkIs(p: Parser, chunks: seq<Chunk>)
    ensures AfterSizeLine(AfterChunks(p, chunks), 0) ==
            Parser(p.f.(nread := 0, contentLength := 0, flags := p.f.flags + {Trailing}, state := HeaderFieldStart),
                   p.trace + (ChunksEvents(chunks) + [ChunkHeader(0)]))
  {
    if chunks == [] {
      assert ChunksEvents(chunks) == [];
    }
  }

  lemma StillKept(f: Fields, g: Fields, hs: seq<Header>, n: nat)
    requires Chunked in f.flags && g.flags == f.flags + {Trailing} + HeadersFlags(hs)
    requires g.kind == f.kind && g.httpMajor == f.httpMajor && g.httpMinor == f.httpMinor
    requires (Close in HeadersFlags(hs) <==> Asks(hs, CLOSE))
             && (KeepAlive in HeadersFlags(hs) <==> Asks(hs, KEEP_ALIVE))
    ensures g.(nread := n, state := MessageDone).ShouldKeepAlive() == KeepsTrailing(f, hs)
    ensures g.(nread := n, state := MessageDone).NewMessage() ==
            if !KeepsTrailing(f, hs) then Dead else if f.kind == Request then StartReq else StartRes
  {
    hide Asks, HeadersFlags;
  }

  /** Chunked body with trailers, in any buffers. The connection is kept as the head and the trailers
      together ask for; that the message is an upgrade was decided at its head. */
  lemma TrailerRoundTrip(cfg: Settings, p: Parser, chunks: seq<Chunk>, last: Chunk, hs: seq<Header>, eol: string,
                         buffers: seq<string>)
    returns (q: Parser)
    requires p.f.state == ChunkSizeStart && p.f.nread == 0 && Chunked in p.f.flags
    requires AreTrailers(cfg, chunks, last, hs, eol) && Flatten(buffers) == TrailerText(chunks, last, hs, eol)
    ensures RunAll(cfg, p, buffers) ==
            if p.f.upgrade then Exited(q, |TrailerText(chunks, last, hs, eol)|) else Running(q)
    ensures q.trace == p.trace + TrailerEvents(chunks, hs) + [MessageComplete(KeepsTrailing(p.f, hs))]
    ensures q.f.state == if !KeepsTrailing(p.f, hs) then Dead else if p.f.kind == Request then StartReq else StartRes
  {
    hide Run, IsChunk, AreHeaders, IsEol, AfterHeaders, TrailerOver, KeepsTrailing, HeadersEvents, ChunksEvents,
      HeadersText;
    CutIndependence(cfg, p, buffers);
    ChunksRead(cfg, p, chunks);
    var a := AfterChunks(p, chunks);
    SizeLineReads(cfg, a, last);
    var b := AfterSizeLine(a, 0);
    ReadsThen(cfg, p, ChunksText(chunks), a, SizeLine(last), b);
    EolFirst(eol);
    HeadersThen(cfg, b, hs, eol, eol);
    HeadersKeep(b, hs, eol);
    var c := AfterHeaders(b, hs, eol);
    BlankTrailerReads(cfg, c, eol);
    q := BehindTrailers(p, chunks, hs, eol);
    TrailerTells(p, chunks, hs, eol);
    ReadsThenEnds(cfg, p, ChunksText(chunks) + SizeLine(last), b, HeadersText(hs, eol) + eol, q);
    assert TrailerText(chunks, last, hs, eol) == ChunksText(chunks) + SizeLine(last) + (HeadersText(hs, eol) + eol);
  }
}
