/** Body lengths: what numbers a Content-Length header and a chunk size line are accepted
    for, and the bodies that follow.
 */
module HttpBodies {
  import opened Options
  import opened Sequences
  import opened HttpTypes
  import opened HttpStep
  import opened HttpInvariant
  import opened HttpRun
  import opened HttpAgree
  import opened HttpReads

  // ---------------------------------------------------------------- Content-Length

  predicate IsDecimal(s: string) { s != "" && forall i :: 0 <= i < |s| ==> IsNum(s[i]) }

  function Decimal(s: string): nat
    requires forall i :: 0 <= i < |s| ==> IsNum(s[i])
  {
    if s == "" then 0 else Decimal(s[..|s| - 1]) * 10 + Digit(s[|s| - 1])
  }

  /** The parser after the digits of a Content-Length value. */
  function AfterLength(p: Parser, digits: string): Parser
    requires IsDecimal(digits)
  {
    Parser(p.f.(state := HeaderValue, headerState := ContentLengthNum, index := 0, flags := p.f.flags + {ContentLength},
                contentLength := Decimal(digits), nread := p.f.nread + |digits|),
           Emit(p.trace, Data(Value, digits)))
  }

  /** Before the value of a first Content-Length header. */
  predicate ExpectsLength(p: Parser) {
    p.f.state == HeaderValueDiscardWs && p.f.headerState == ContentLengthName && ContentLength !in p.f.flags
  }

  lemma FirstDigitStep(cfg: Settings, p: Parser, ch: char)
    requires ExpectsLength(p) && IsNum(ch)
    ensures Step(cfg, p, ch) ==
            Break(p.f.(state := HeaderValue, headerState := ContentLengthNum, index := 0,
                       flags := p.f.flags + {ContentLength},
                       contentLength := Digit(ch)),
                  Some(Data(Value, [ch])))
  {
  }

  lemma NextDigitStep(cfg: Settings, p: Parser, ch: char)
    requires p.f.state == HeaderValue && p.f.headerState == ContentLengthNum && IsNum(ch)
    ensures Step(cfg, p, ch) ==
            if MAX_BEFORE_DIGIT < p.f.contentLength then Error(InvalidContentLength)
            else Break(p.f.(contentLength := p.f.contentLength * 10 + Digit(ch)), Some(Data(Value, [ch])))
  {
    assert Step(cfg, p, ch) == StepInValue(p.f, ch);
    assert ValueStep(ValueOf(p.f), ch) ==
           if MAX_BEFORE_DIGIT < p.f.contentLength then Bad(InvalidContentLength)
           else Fine(ValueOf(p.f).(contentLength := p.f.contentLength * 10 + Digit(ch)));
  }

  /** A Content-Length value is accepted exactly if its value is at most `MAX_LENGTH`, far
      from the sentinel, and then it is stored exactly. */
  lemma {:induction false} LengthAccepted(cfg: Settings, p: Parser, digits: string)
    requires ExpectsLength(p) && IsDecimal(digits) && Room(cfg, p, |digits|)
    ensures if Decimal(digits) <= MAX_LENGTH then Reads(cfg, p, digits, AfterLength(p, digits))
            else Run(cfg, p, digits).Failed? && Run(cfg, p, digits).e == InvalidContentLength
  {
    hide Run, Step, Emit, Reads, AfterLength;
    var n := |digits| - 1;
    var v, ch := digits[..n], digits[n];
    assert digits == v + [ch];
    if n == 0 {
      FirstDigitReads(cfg, p, ch);
      assert digits == [ch];
    } else {
      LengthAccepted(cfg, p, v);
      if Decimal(v) <= MAX_LENGTH {
        NextDigitReads(cfg, p, v, ch);
      } else {
        RunStays(cfg, p, digits, n);
      }
    }
  }

  lemma FirstDigitReads(cfg: Settings, p: Parser, ch: char)
    requires ExpectsLength(p) && IsNum(ch) && Room(cfg, p, 1)
    ensures IsDecimal([ch]) && Decimal([ch]) <= 9 && Reads(cfg, p, [ch], AfterLength(p, [ch]))
  {
    hide Run, Step, Emit;
    ReadsNothing(cfg, p);
    FirstDigitStep(cfg, Counted(p), ch);
    ReadsByte(cfg, p, "", p, ch);
    assert "" + [ch] == [ch] && [ch][..0] == "";
  }

  lemma NextDigitReads(cfg: Settings, p: Parser, v: string, ch: char)
    requires IsDecimal(v) && IsNum(ch) && IsDecimal(v + [ch]) && Room(cfg, p, |v| + 1)
    requires Decimal(v) <= MAX_LENGTH && Reads(cfg, p, v, AfterLength(p, v))
    ensures Decimal(v + [ch]) == Decimal(v) * 10 + Digit(ch)
    ensures if Decimal(v + [ch]) <= MAX_LENGTH then Reads(cfg, p, v + [ch], AfterLength(p, v + [ch]))
            else Run(cfg, p, v + [ch]).Failed? && Run(cfg, p, v + [ch]).e == InvalidContentLength
  {
    hide Run, Step, Emit;
    assert (v + [ch])[..|v|] == v;
    assert Decimal(v + [ch]) == Decimal(v) * 10 + Digit(ch);
    hide Decimal;
    var q := AfterLength(p, v);
    NextDigitStep(cfg, Counted(q), ch);
    if Decimal(v) <= MAX_BEFORE_DIGIT {
      ReadsByte(cfg, p, v, q, ch);
      EmitTwice(p.trace, Value, v, [ch]);
    } else {
      FailsByte(cfg, p, v, q, ch);
    }
  }

  // ---------------------------------------------------------------- chunk sizes

  /** What the parser takes for a size: every character is one that its table of digits does not
      refuse. */
  predicate IsSize(s: string) { s != "" && forall i :: 0 <= i < |s| ==> Unhex(s[i]) != -1 }

  function Hexadecimal(s: string): nat
    requires forall i :: 0 <= i < |s| ==> Unhex(s[i]) != -1
  {
    if s == "" then 0 else Hexadecimal(s[..|s| - 1]) * 16 + Unhex(s[|s| - 1])
  }

  /** The largest chunk size. */
  const MAX_CHUNK: nat := 0xFFFF_FFFF_FFFF_FFEF

  predicate SizeFits(s: string) { IsSize(s) && Hexadecimal(s) <= MAX_CHUNK }

  /** Where a text stops being a size that fits. */
  function BadAt(w: string): (k: nat)
    requires w != "" && !SizeFits(w)
    ensures k < |w| && !SizeFits(w[..k + 1]) && (k > 0 ==> SizeFits(w[..k]))
  {
    var n := |w| - 1;
    assert w[..n + 1] == w;
    if n == 0 || SizeFits(w[..n]) then n
    else
      var k := BadAt(w[..n]);
      assert w[..n][..k] == w[..k] && w[..n][..k + 1] == w[..k + 1];
      k
  }

  function AfterSize(p: Parser, size: string): Parser
    requires IsSize(size)
  {
    p.(f := p.f.(state := ChunkSize, contentLength := Hexadecimal(size), nread := p.f.nread + |size|))
  }

  lemma StepOfChunk(cfg: Settings, p: Parser, ch: char)
    requires InChunks(p.f.state)
    ensures Step(cfg, p, ch) == StepChunk(p.f, ch)
  {
  }

  /** The characters that end a size. */
  predicate EndsSize(ch: char) { ch == CR || ch == ';' || ch == ' ' }

  /** What a size that does not fit is refused for, and where: at a character that is no digit, or
      at the first digit that makes its value exceed `MAX_CHUNK`. */
  function SizeRefused(w: string): Result
    requires w != "" && !SizeFits(w)
  {
    Failed(if Unhex(w[BadAt(w)]) == -1 then InvalidChunkSize else InvalidContentLength, BadAt(w))
  }

  /** A text is accepted as a chunk size exactly if it is made of digits and its value is at most
      `MAX_CHUNK`, and then it is stored exactly; any other text is refused at its first bad
      character. */
  lemma {:induction false} SizeAccepted(cfg: Settings, p: Parser, w: string)
    requires p.f.state == ChunkSizeStart && w != "" && Room(cfg, p, |w|)
    requires forall i :: 1 <= i < |w| ==> !EndsSize(w[i])
    ensures if SizeFits(w) then Reads(cfg, p, w, AfterSize(p, w)) else Run(cfg, p, w) == SizeRefused(w)
  {
    hide Run, Step, Unhex, Reads, AfterSize, SizeFits, EndsSize, BadAt;
    var n := |w| - 1;
    var v, ch := w[..n], w[n];
    assert w == v + [ch];
    SizeIsPrefixed(v, ch);
    if n == 0 {
      FirstSizeReads(cfg, p, ch);
      assert w == [ch];
    } else {
      SizeAccepted(cfg, p, v);
      if SizeFits(v) {
        NextSizeReads(cfg, p, v, ch);
      } else {
        RunStays(cfg, p, w, n);
      }
    }
  }

  /** What one more character does to a size. */
  lemma SizeIsPrefixed(v: string, ch: char)
    ensures v != "" && !SizeFits(v) ==> !SizeFits(v + [ch]) && SizeRefused(v + [ch]) == SizeRefused(v)
    ensures (v == "" || SizeFits(v)) && !SizeFits(v + [ch]) ==> BadAt(v + [ch]) == |v|
  {
    hide Unhex;
    var w := v + [ch];
    assert w[..|v|] == v;
    if v != "" && SizeFits(w) {
      assert forall i :: 0 <= i < |v| ==> v[i] == w[i];
      UnhexRange(ch);
      assert Hexadecimal(w) == Hexadecimal(v) * 16 + Unhex(ch);
    }
  }

  lemma FirstSizeReads(cfg: Settings, p: Parser, ch: char)
    requires p.f.state == ChunkSizeStart && Room(cfg, p, 1)
    ensures SizeFits([ch]) <==> Unhex(ch) != -1
    ensures if SizeFits([ch]) then Reads(cfg, p, [ch], AfterSize(p, [ch]))
            else Run(cfg, p, [ch]) == Failed(InvalidChunkSize, 0)
  {
    hide Run, Step, Unhex;
    UnhexRange(ch);
    ReadsNothing(cfg, p);
    StepOfChunk(cfg, Counted(p), ch);
    assert "" + [ch] == [ch] && [ch][..0] == "";
    if Unhex(ch) == -1 {
      FailsByte(cfg, p, "", p, ch);
      assert [ch][0] == ch;
    } else {
      ReadsByte(cfg, p, "", p, ch);
      assert Hexadecimal([ch]) == Unhex(ch);
    }
  }

  lemma NextSizeReads(cfg: Settings, p: Parser, v: string, ch: char)
    requires SizeFits(v) && !EndsSize(ch) && Room(cfg, p, |v| + 1) && Reads(cfg, p, v, AfterSize(p, v))
    ensures if SizeFits(v + [ch]) then Reads(cfg, p, v + [ch], AfterSize(p, v + [ch]))
            else Run(cfg, p, v + [ch]) ==
                 Failed(if Unhex(ch) == -1 then InvalidChunkSize else InvalidContentLength, |v|)
  {
    hide Run, Step, Unhex;
    UnhexRange(ch);
    var w := v + [ch];
    assert w[..|v|] == v && w[|v|] == ch;
    var q := AfterSize(p, v);
    StepOfChunk(cfg, Counted(q), ch);
    if Unhex(ch) == -1 {
      FailsByte(cfg, p, v, q, ch);
    } else {
      assert IsSize(w) && Hexadecimal(w) == Hexadecimal(v) * 16 + Unhex(ch);
      hide Hexadecimal;
      if Hexadecimal(v) <= MAX_BEFORE_HEX {
        ReadsByte(cfg, p, v, q, ch);
      } else {
        FailsByte(cfg, p, v, q, ch);
      }
    }
  }

  lemma UnhexRange(ch: char)
    ensures -1 <= Unhex(ch) < 16
    ensures Unhex(ch) != -1 ==> ch != CR && ch != ';' && ch != ' '
  {
  }

  /** What the table of digits refuses: of the bytes from 0x80 on nothing, they are the digit 0. */
  lemma UnhexIs(ch: char)
    ensures Unhex(ch) != -1 <==> IsHex(ch) || ch as int >= 128
    ensures ch as int >= 128 ==> Unhex(ch) == 0
  {
  }

  /** chunk-size of RFC 7230 section 4.1 */
  predicate IsChunkSize(w: string) { w != "" && forall i :: 0 <= i < |w| ==> IsHex(w[i]) }

  predicate IsAscii(w: string) { forall i :: 0 <= i < |w| ==> w[i] as int < 128 }

  /** A text accepted as a size is one of the standard exactly if no byte in it is from 0x80 on,
      and every size of the standard whose value fits is accepted: the parser and the standard
      disagree on just the accepted texts with such a byte. */
  lemma SizeIsStandard(w: string)
    ensures SizeFits(w) ==> (IsChunkSize(w) <==> IsAscii(w))
    ensures (SizeFits(w) <==> IsChunkSize(w) && IsSize(w) && Hexadecimal(w) <= MAX_CHUNK)
            <==> !(SizeFits(w) && !IsAscii(w))
    ensures IsChunkSize(w) ==> IsSize(w)
  {
    hide Unhex, Hexadecimal, IsHex;
    forall i | 0 <= i < |w| ensures Unhex(w[i]) != -1 <==> IsHex(w[i]) || w[i] as int >= 128 {
      UnhexIs(w[i]);
    }
    forall i | 0 <= i < |w| && IsHex(w[i]) ensures w[i] as int < 128 {
      HexIsAscii(w[i]);
    }
  }

  lemma HexIsAscii(ch: char)
    requires IsHex(ch)
    ensures ch as int < 128
  {
  }

  /** A size with a byte that is no digit of the standard, read as 0x50. */
  lemma HighByteIsZero(cfg: Settings, p: Parser)
    requires p.f.state == ChunkSizeStart && Room(cfg, p, 2)
    ensures Reads(cfg, p, "5\U{80}", p.(f := p.f.(state := ChunkSize, contentLength := 0x50, nread := p.f.nread + 2)))
    ensures !IsChunkSize("5\U{80}")
  {
    hide Run, Step;
    var w := "5\U{80}";
    assert w[..1] == "5" && "5"[..0] == "";
    assert Hexadecimal("5") == 5 && Unhex('5') == 5 && Unhex('\U{80}') == 0;
    assert w[1] == '\U{80}' && Hexadecimal(w) == 0x50;
    SizeAccepted(cfg, p, w);
  }

  // ---------------------------------------------------------------- chunked coding

  /** A chunk as it is sent: its size in hexadecimal, an extension, and its data. */
  datatype Chunk = Chunk(size: string, ext: string, data: string)

  predicate IsExtension(ext: string) {
    ext == "" || ((ext[0] == ';' || ext[0] == ' ') && CR !in ext)
  }

  predicate IsChunk(cfg: Settings, c: Chunk) {
    && IsSize(c.size) && IsExtension(c.ext) && |c.size| + |c.ext| + 2 <= cfg.limit
    && Hexadecimal(c.size) == |c.data| <= MAX_CHUNK
  }

  const CRLF := "\r\n"

  function SizeLine(c: Chunk): string { c.size + c.ext + CRLF }

  function ChunkText(c: Chunk): string { SizeLine(c) + c.data + CRLF }

  function ChunkEvents(c: Chunk): seq<Event> { [ChunkHeader(|c.data|), Data(Body, c.data), ChunkComplete] }

  /** The parser after the extension of a chunk size. */
  function AfterExtension(p: Parser, ext: string): Parser {
    if ext == "" then p else p.(f := p.f.(state := ChunkParameters, nread := p.f.nread + |ext|))
  }

  lemma {:induction false} ExtensionReads(cfg: Settings, p: Parser, ext: string)
    requires p.f.state == ChunkSize && IsExtension(ext) && Room(cfg, p, |ext|)
    ensures Reads(cfg, p, ext, AfterExtension(p, ext))
  {
    hide Run, Step, Unhex;
    if ext == "" {
      ReadsNothing(cfg, p);
    } else {
      var n := |ext| - 1;
      var v := ext[..n];
      assert ext == v + [ext[n]];
      assert n > 0 ==> v[0] == ext[0];
      ExtensionReads(cfg, p, v);
      var q := AfterExtension(p, v);
      StepOfChunk(cfg, Counted(q), ext[n]);
      UnhexNot();
      ReadsByte(cfg, p, v, q, ext[n]);
    }
  }

  lemma UnhexNot()
    ensures Unhex(';') == -1 && Unhex(' ') == -1 && Unhex(CR) == -1
  {
  }

  /** The parser after a size line. */
  function AfterSizeLine(p: Parser, size: nat): Parser {
    if size == 0 then
      Parser(p.f.(nread := 0, contentLength := 0, flags := p.f.flags + {Trailing}, state := HeaderFieldStart),
             p.trace + [ChunkHeader(0)])
    else
      Parser(p.f.(nread := 0, contentLength := size, state := ChunkData), p.trace + [ChunkHeader(size)])
  }

  lemma SizeLineReads(cfg: Settings, p: Parser, c: Chunk)
    requires p.f.state == ChunkSizeStart && p.f.nread == 0 && IsChunk(cfg, c)
    ensures Reads(cfg, p, SizeLine(c), AfterSizeLine(p, |c.data|))
  {
    hide Run, Step, Unhex, Hexadecimal;
    forall i | 0 <= i < |c.size| ensures !EndsSize(c.size[i]) {
      UnhexRange(c.size[i]);
    }
    SizeAccepted(cfg, p, c.size);
    var q := AfterSize(p, c.size);
    ExtensionReads(cfg, q, c.ext);
    var r := AfterExtension(q, c.ext);
    ReadsThen(cfg, p, c.size, q, c.ext, r);
    StepOfChunk(cfg, Counted(r), CR);
    ReadsByte(cfg, p, c.size + c.ext, r, CR);
    var s := After(Counted(r), Step(cfg, Counted(r), CR));
    StepOfChunk(cfg, Counted(s), LF);
    ReadsByte(cfg, p, c.size + c.ext + [CR], s, LF);
    assert SizeLine(c) == c.size + c.ext + [CR] + [LF];
  }

  /** The parser after a whole chunk. */
  function AfterChunk(p: Parser, c: Chunk): Parser {
    Parser(p.f.(nread := 0, contentLength := 0, state := ChunkSizeStart), p.trace + ChunkEvents(c))
  }

  lemma ChunkReads(cfg: Settings, p: Parser, c: Chunk)
    requires p.f.state == ChunkSizeStart && p.f.nread == 0 && IsChunk(cfg, c) && c.data != ""
    ensures Reads(cfg, p, ChunkText(c), AfterChunk(p, c))
  {
    hide Run, Step, Unhex, Hexadecimal, IsChunk;
    SizeLineReads(cfg, p, c);
    var q := AfterSizeLine(p, |c.data|);
    assert c.data[..0] == "" && c.data[..|c.data|] == c.data && c.data[0..|c.data|] == c.data;
    ReadsNothing(cfg, q);
    RunLastChunk(cfg, q, c.data, 0, |c.data|, q);
    var r := Parser(q.f.(contentLength := 0, state := ChunkDataAlmostDone), Emit(q.trace, Data(Body, c.data)));
    ReadsThen(cfg, p, SizeLine(c), q, c.data, r);
    StepOfChunk(cfg, Counted(r), CR);
    ReadsByte(cfg, p, SizeLine(c) + c.data, r, CR);
    var s := After(Counted(r), Step(cfg, Counted(r), CR));
    StepOfChunk(cfg, Counted(s), LF);
    ReadsByte(cfg, p, SizeLine(c) + c.data + [CR], s, LF);
    assert ChunkText(c) == SizeLine(c) + c.data + [CR] + [LF];
    assert q.trace + [Data(Body, c.data)] + [ChunkComplete] == p.trace + ChunkEvents(c);
  }

  function ChunksText(chunks: seq<Chunk>): string {
    if chunks == [] then "" else ChunksText(chunks[..|chunks| - 1]) + ChunkText(chunks[|chunks| - 1])
  }

  function ChunksEvents(chunks: seq<Chunk>): seq<Event> {
    if chunks == [] then [] else ChunksEvents(chunks[..|chunks| - 1]) + ChunkEvents(chunks[|chunks| - 1])
  }

  predicate AreChunks(cfg: Settings, chunks: seq<Chunk>) {
    forall i :: 0 <= i < |chunks| ==> IsChunk(cfg, chunks[i]) && chunks[i].data != ""
  }

  function AfterChunks(p: Parser, chunks: seq<Chunk>): Parser {
    if chunks == [] then p
    else Parser(p.f.(nread := 0, contentLength := 0, state := ChunkSizeStart), p.trace + ChunksEvents(chunks))
  }

  lemma {:induction false} ChunksRead(cfg: Settings, p: Parser, chunks: seq<Chunk>)
    requires p.f.state == ChunkSizeStart && p.f.nread == 0 && AreChunks(cfg, chunks)
    ensures Reads(cfg, p, ChunksText(chunks), AfterChunks(p, chunks))
  {
    hide Run, Step, IsChunk;
    if chunks == [] {
      ReadsNothing(cfg, p);
    } else {
      var n := |chunks| - 1;
      var c := chunks[n];
      ChunksRead(cfg, p, chunks[..n]);
      var q := AfterChunks(p, chunks[..n]);
      ChunkReads(cfg, q, c);
      ReadsThen(cfg, p, ChunksText(chunks[..n]), q, ChunkText(c), AfterChunk(q, c));
      assert p.trace + ChunksEvents(chunks) == q.trace + ChunkEvents(c);
    }
  }

  /** A whole chunked body: chunks with data, and a chunk of size zero. */
  function BodyText(chunks: seq<Chunk>, last: Chunk): string {
    ChunksText(chunks) + SizeLine(last) + CRLF
  }

  /** The bytes of a chunked body. */
  function Payload(chunks: seq<Chunk>): string {
    if chunks == [] then "" else Payload(chunks[..|chunks| - 1]) + chunks[|chunks| - 1].data
  }

  /** The body bytes that a list of callbacks hands over. */
  function Delivered(events: seq<Event>): string {
    if events == [] then ""
    else
      var e := events[|events| - 1];
      Delivered(events[..|events| - 1]) + if e.Data? && e.kind == Body then e.text else ""
  }

  lemma DeliveredSnoc(events: seq<Event>, e: Event)
    ensures Delivered(events + [e]) == Delivered(events) + if e.Data? && e.kind == Body then e.text else ""
  {
    assert (events + [e])[..|events|] == events;
  }

  /** The callbacks of the chunks hand over their data, all of it and in order. */
  lemma {:induction false} ChunksDeliver(chunks: seq<Chunk>)
    ensures Delivered(ChunksEvents(chunks)) == Payload(chunks)
  {
    hide Delivered;
    if chunks == [] {
      NothingDelivered();
    } else {
      var n := |chunks| - 1;
      ChunksDeliver(chunks[..n]);
      ChunkDelivers(ChunksEvents(chunks[..n]), chunks[n]);
    }
  }

  lemma NothingDelivered()
    ensures Delivered([]) == ""
  {
  }

  lemma ChunkDelivers(events: seq<Event>, c: Chunk)
    ensures Delivered(events + ChunkEvents(c)) == Delivered(events) + c.data
  {
    hide Delivered;
    var head, data := events + [ChunkHeader(|c.data|)], events + [ChunkHeader(|c.data|), Data(Body, c.data)];
    DeliveredSnoc(events, ChunkHeader(|c.data|));
    DeliveredSnoc(head, Data(Body, c.data));
    assert head + [Data(Body, c.data)] == data;
    DeliveredSnoc(data, ChunkComplete);
    assert data + [ChunkComplete] == events + ChunkEvents(c);
  }

  /** The end of a message: its callback, and the state the connection goes on in. */
  function MessageOver(p: Parser): Parser {
    Parser(p.f.(state := p.f.NewMessage()), p.trace + [MessageComplete(p.f.ShouldKeepAlive())])
  }

  /** What a run comes to that ends a message after `n` bytes: for a message that asks to
      upgrade, the parser leaves the rest to another protocol. */
  function MessageEnds(p: Parser, n: nat): Result { if p.f.upgrade then Exited(p, n) else Running(p) }

  lemma ReadsThenEnds(cfg: Settings, p: Parser, a: string, q: Parser, b: string, r: Parser)
    requires Reads(cfg, p, a, q) && Run(cfg, q, b) == MessageEnds(r, |b|)
    ensures Run(cfg, p, a + b) == MessageEnds(r, |a + b|)
  {
    hide Run;
    RunAppend(cfg, p, a, b);
  }

  lemma MessageDoneExec(cfg: Settings, p: Parser, ch: char, at: nat)
    requires p.f.state == MessageDone
    ensures Exec(cfg, p, ch, at) == MessageEnds(MessageOver(p), at + 1)
  {
    hide Exec, Step;
    StepOfMessageDone(cfg, p, ch);
    ExecOnce(cfg, p, ch, at);
  }

  lemma StepOfMessageDone(cfg: Settings, p: Parser, ch: char)
    requires p.f.state == MessageDone
    ensures Step(cfg, p, ch) ==
            if p.f.upgrade then Exit(Finished(p.f), Farewell(p.f)) else Break(Finished(p.f), Farewell(p.f))
  {
  }

  lemma StepOfHeaderEnd(cfg: Settings, p: Parser)
    ensures p.f.state == HeaderFieldStart ==> Step(cfg, p, CR) == Break(p.f.(state := HeadersAlmostDone), None)
    ensures p.f.state == HeadersAlmostDone && Trailing in p.f.flags ==>
              Step(cfg, p, LF) == Again(p.f.(state := MessageDone), Some(ChunkComplete))
  {
  }

  /** The empty line after the zero chunk completes that chunk and the message. */
  lemma TrailerEndReads(cfg: Settings, p: Parser)
    requires p.f.state == HeaderFieldStart && Trailing in p.f.flags && Room(cfg, p, 2)
    ensures Run(cfg, p, CRLF) ==
            MessageEnds(MessageOver(Parser(p.f.(nread := p.f.nread + 2, state := MessageDone),
                p.trace + [ChunkComplete])), 2)
  {
    hide Run, Step, Exec;
    ReadsNothing(cfg, p);
    StepOfHeaderEnd(cfg, Counted(p));
    ReadsByte(cfg, p, "", p, CR);
    assert CRLF == [CR] + [LF] && [CR] == "" + [CR];
    var q := After(Counted(p), Step(cfg, Counted(p), CR));
    StepOfHeaderEnd(cfg, Counted(q));
    ReadsAgain(cfg, p, [CR], q, LF);
    MessageDoneExec(cfg, After(Counted(q), Step(cfg, Counted(q), LF)), LF, 1);
  }

  /** Keeping the connection alive does not depend on the length once it is known. */
  lemma KeepAliveWithout(f: Fields, g: Fields)
    requires g == f.(contentLength := g.contentLength, nread := g.nread, state := g.state, flags := g.flags)
    requires g.flags == f.flags || g.flags == f.flags + {Trailing}
    requires Chunked in f.flags || (f.contentLength != NO_LENGTH && g.contentLength != NO_LENGTH)
    ensures f.ShouldKeepAlive() == g.ShouldKeepAlive() && f.NewMessage() == g.NewMessage()
  {
  }

  /** The callbacks of a chunked body, up to the end of the message. */
  function BodyEvents(chunks: seq<Chunk>): seq<Event> {
    ChunksEvents(chunks) + [ChunkHeader(0), ChunkComplete]
  }

  predicate IsChunkedBody(cfg: Settings, chunks: seq<Chunk>, last: Chunk) {
    AreChunks(cfg, chunks) && IsChunk(cfg, last) && last.data == "" && cfg.limit >= 2
  }

  /** The parser after a chunked body and the end of its message. */
  function ChunkedBodyOver(p: Parser, chunks: seq<Chunk>): Parser {
    Parser(p.f.(nread := 2, contentLength := 0, flags := p.f.flags + {Trailing}, state := p.f.NewMessage()),
           p.trace + BodyEvents(chunks) + [MessageComplete(p.f.ShouldKeepAlive())])
  }

  lemma ChunkedBodyReads(cfg: Settings, p: Parser, chunks: seq<Chunk>, last: Chunk)
    requires p.f.state == ChunkSizeStart && p.f.nread == 0 && Chunked in p.f.flags
    requires IsChunkedBody(cfg, chunks, last)
    ensures Run(cfg, p, BodyText(chunks, last)) == MessageEnds(ChunkedBodyOver(p, chunks), |BodyText(chunks, last)|)
  {
    hide Run, IsChunk;
    ChunksRead(cfg, p, chunks);
    var a := AfterChunks(p, chunks);
    SizeLineReads(cfg, a, last);
    var b := AfterSizeLine(a, 0);
    ReadsThen(cfg, p, ChunksText(chunks), a, SizeLine(last), b);
    TrailerEndReads(cfg, b);
    var c := Parser(b.f.(nread := b.f.nread + 2, state := MessageDone), b.trace + [ChunkComplete]);
    ReadsThenEnds(cfg, p, ChunksText(chunks) + SizeLine(last), b, CRLF, MessageOver(c));
    KeepAliveWithout(p.f, c.f);
    assert c.trace == p.trace + BodyEvents(chunks);
  }

  /** Chunked coding round trip: a chunked body, in any buffers, is taken apart into exactly
      its chunks: for each one its size, its data and its end, then the zero chunk and its end,
      then one end of the message, where the parser leaves if the message asks to upgrade. The
      body bytes delivered are the payload. */
  lemma ChunkedRoundTrip(cfg: Settings, p: Parser, chunks: seq<Chunk>, last: Chunk, buffers: seq<string>)
    requires p.f.state == ChunkSizeStart && p.f.nread == 0 && Chunked in p.f.flags
    requires IsChunkedBody(cfg, chunks, last) && Flatten(buffers) == BodyText(chunks, last)
    ensures RunAll(cfg, p, buffers) == MessageEnds(ChunkedBodyOver(p, chunks), |BodyText(chunks, last)|)
    ensures Delivered(ChunksEvents(chunks)) == Payload(chunks)
  {
    hide Run, IsChunk;
    CutIndependence(cfg, p, buffers);
    ChunkedBodyReads(cfg, p, chunks, last);
    ChunksDeliver(chunks);
  }

  // ---------------------------------------------------------------- bodies of known length

  lemma FixedBodyReads(cfg: Settings, p: Parser, data: string)
    requires p.f.state == BodyIdentity && p.f.contentLength == |data| > 0 && Reachable(cfg, p)
    ensures Run(cfg, p, data) ==
            MessageEnds(MessageOver(Parser(p.f.(contentLength := 0), Emit(p.trace, Data(Body, data)))), |data|)
  {
    hide Run, Step, Exec, Reachable, Inv;
    assert data[..0] == "" && data[..|data|] == data && data[0..|data|] == data;
    ReadsNothing(cfg, p);
    RunLastBody(cfg, p, data, 0, |data|, p);
    var w := Parser(p.f.(contentLength := 0, state := MessageDone), Emit(p.trace, Data(Body, data)));
    MessageDoneExec(cfg, w, data[|data| - 1], |data| - 1);
  }

  /** A body of known length, in any buffers, is delivered byte for byte and then the message
      is complete; if it asks to upgrade, the parser leaves right behind the body. */
  lemma FixedBodyRoundTrip(cfg: Settings, p: Parser, data: string, buffers: seq<string>) returns (q: Parser)
    requires Reachable(cfg, p) && p.f.state == BodyIdentity && p.f.contentLength == |data|
    requires Flatten(buffers) == data
    ensures RunAll(cfg, p, buffers) == MessageEnds(q, |data|) && q.f.upgrade == p.f.upgrade
    ensures q.trace == Emit(p.trace, Data(Body, data)) + [MessageComplete(p.f.ShouldKeepAlive())]
    ensures q.f.state == p.f.NewMessage()
  {
    CutIndependence(cfg, p, buffers);
    BodyNumbersBetween(cfg, p);
    FixedBodyReads(cfg, p, data);
    q := MessageOver(Parser(p.f.(contentLength := 0), Emit(p.trace, Data(Body, data))));
    hide Run, Reachable;
    KeepAliveWithout(p.f, p.f.(contentLength := 0));
  }

  lemma BodyNumbersBetween(cfg: Settings, p: Parser)
    requires Reachable(cfg, p) && p.f.state == BodyIdentity
    ensures 0 < p.f.contentLength < NO_LENGTH
  {
  }
}
