/** The in-buffer marks of `http_parser_execute`: where in the current buffer the data
    of the next data callback begins, for each kind of data.
 */
module HttpMarks {
  import opened Options
  import opened HttpTypes
  import opened HttpStep
  import opened HttpInvariant
  import opened HttpAgree

  datatype Marks = Marks(field: Option<nat>, value: Option<nat>, url: Option<nat>, body: Option<nat>,
                         status: Option<nat>)

  const NO_MARKS := Marks(None, None, None, None, None)

  predicate MarkAt(mark: Option<nat>, p: nat) { mark.Some? ==> mark.value <= p }

  /** Every mark is set in its own states only, so never two at a time; all but the body
      mark are set throughout their states. */
  predicate MarksFit(s: State, m: Marks, p: nat) {
    && (m.field.Some? <==> s == HeaderField)
    && (m.value.Some? <==> s == HeaderValue)
    && (m.url.Some? <==> InUrl(s))
    && (m.status.Some? <==> s == ResStatus)
    && (m.body.Some? ==> s == BodyIdentity || s == BodyIdentityEof || s == ChunkData || s == ChunkDataAlmostDone)
    && MarkAt(m.field, p) && MarkAt(m.value, p) && MarkAt(m.url, p) && MarkAt(m.status, p) && MarkAt(m.body, p)
  }

  /** The marks a buffer begins with. */
  function ResumeMarks(s: State): Marks {
    if s == HeaderField then NO_MARKS.(field := Some(0))
    else if s == HeaderValue then NO_MARKS.(value := Some(0))
    else if InUrl(s) then NO_MARKS.(url := Some(0))
    else if s == ResStatus then NO_MARKS.(status := Some(0))
    else NO_MARKS
  }

  /** The callback that is due for the marked data up to `p`. */
  function Due(m: Marks, data: string, p: nat): Option<Event> {
    if m.field.Some? then DueFrom(Field, m.field.value, data, p)
    else if m.value.Some? then DueFrom(Value, m.value.value, data, p)
    else if m.url.Some? then DueFrom(Url, m.url.value, data, p)
    else if m.body.Some? then DueFrom(Body, m.body.value, data, p)
    else if m.status.Some? then DueFrom(Status, m.status.value, data, p)
    else None
  }

  function DueFrom(kind: DataKind, from: nat, data: string, p: nat): Option<Event> {
    if from <= p <= |data| then Some(Data(kind, data[from..p])) else None
  }

  /** The callbacks made, and the one that is due, joined. */
  ghost function TraceOf(calls: seq<Event>, m: Marks, data: string, p: nat): seq<Event> {
    Speak(Joined(calls), Due(m, data, p))
  }

  /** In the states of a mark, data of its kind is due. */
  lemma DueInState(s: State, m: Marks, data: string, p: nat)
    requires MarksFit(s, m, p) && p <= |data|
    ensures s == HeaderField ==> Due(m, data, p) == Some(Data(Field, data[m.field.value..p]))
    ensures s == HeaderValue ==> Due(m, data, p) == Some(Data(Value, data[m.value.value..p]))
    ensures InUrl(s) ==> Due(m, data, p) == Some(Data(Url, data[m.url.value..p]))
    ensures s == ResStatus ==> Due(m, data, p) == Some(Data(Status, data[m.status.value..p]))
  {
  }

  /** One more byte of marked data. */
  lemma DueGrows(calls: seq<Event>, m: Marks, data: string, p: nat)
    requires p < |data| && Due(m, data, p).Some?
    requires Due(m, data, p + 1).Some?
    ensures var kind := Due(m, data, p).value.kind;
            TraceOf(calls, m, data, p + 1) == Emit(TraceOf(calls, m, data, p), Data(kind, [data[p]]))
  {
    DueGrowsTo(calls, m, data, p, p + 1);
    assert data[p..p + 1] == [data[p]];
  }

  /** Several more bytes of marked data. */
  lemma DueGrowsTo(calls: seq<Event>, m: Marks, data: string, p: nat, q: nat)
    requires p <= q <= |data| && Due(m, data, p).Some?
    ensures var kind := Due(m, data, p).value.kind;
            TraceOf(calls, m, data, q) == Emit(TraceOf(calls, m, data, p), Data(kind, data[p..q]))
  {
    hide Emit, Joined;
    DueTo(m, data, p, q);
    hide Due;
    var e := Due(m, data, p).value;
    EmitTwice(Joined(calls), e.kind, e.text, data[p..q]);
  }

  lemma DueTo(m: Marks, data: string, p: nat, q: nat)
    requires p <= q <= |data| && Due(m, data, p).Some?
    ensures var e := Due(m, data, p).value;
            e.Data? && Due(m, data, q) == Some(Data(e.kind, e.text + data[p..q]))
  {
    hide DueFrom;
    DueFromTo(Field, if m.field.Some? then m.field.value else 0, data, p, q);
    DueFromTo(Value, if m.value.Some? then m.value.value else 0, data, p, q);
    DueFromTo(Url, if m.url.Some? then m.url.value else 0, data, p, q);
    DueFromTo(Body, if m.body.Some? then m.body.value else 0, data, p, q);
    DueFromTo(Status, if m.status.Some? then m.status.value else 0, data, p, q);
  }

  lemma DueFromTo(kind: DataKind, from: nat, data: string, p: nat, q: nat)
    requires p <= q <= |data|
    ensures DueFrom(kind, from, data, p).Some? ==>
              var e := DueFrom(kind, from, data, p).value;
              e == Data(kind, e.text) && DueFrom(kind, from, data, q) == Some(Data(kind, e.text + data[p..q]))
  {
    if from <= p {
      assert data[from..q] == data[from..p] + data[p..q];
    }
  }

  /** How long the value due is makes no difference to the grammar. */
  lemma ValueDue(calls: seq<Event>, m: Marks, data: string, p: nat, q: nat)
    requires m.value.Some? && m.value.value <= p <= q <= |data| && m.field == None
    requires PhaseAfter(TraceOf(calls, m, data, p)).Some?
    ensures PhaseAfter(TraceOf(calls, m, data, q)).Some?
  {
    var trace, from := Joined(calls), m.value.value;
    ValueAnyLength(trace, data[from..p], data[from..q]);
  }

  lemma ValueAnyLength(trace: seq<Event>, a: string, b: string)
    requires PhaseAfter(Emit(trace, Data(Value, a))).Some?
    ensures PhaseAfter(Emit(trace, Data(Value, b))).Some?
  {
    var n := |trace| - 1;
    if EndsWith(trace, Value) {
      assert Emit(trace, Data(Value, a))[..n] == trace[..n] == Emit(trace, Data(Value, b))[..n];
    } else {
      assert Emit(trace, Data(Value, a))[..n + 1] == trace == Emit(trace, Data(Value, b))[..n + 1];
    }
  }

  /** A mark set at a byte: the data of the callback due begins with it. */
  lemma DueBegins(calls: seq<Event>, data: string, p: nat, kind: DataKind)
    requires p < |data|
    ensures Speak(Joined(calls), DueFrom(kind, p, data, p + 1)) == Emit(Joined(calls), Data(kind, [data[p]]))
  {
    assert data[p..p + 1] == [data[p]];
  }

  /** Making the callback that is due changes nothing in the joined trace. */
  lemma DueMade(calls: seq<Event>, m: Marks, data: string, p: nat)
    requires Due(m, data, p).Some?
    ensures Joined(calls + [Due(m, data, p).value]) == TraceOf(calls, m, data, p)
  {
    JoinedSnoc(calls, Due(m, data, p).value);
  }

  lemma NothingDue(calls: seq<Event>, data: string, p: nat)
    ensures TraceOf(calls, NO_MARKS, data, p) == Joined(calls)
  {
  }

  /** Beginning a buffer in the middle of data, the empty callback due joins to nothing. */
  lemma ResumeTrace(p: Parser, calls: seq<Event>, data: string)
    requires Joined(calls) == p.trace && GrammarHolds(p)
    ensures MarksFit(p.f.state, ResumeMarks(p.f.state), 0)
    ensures TraceOf(calls, ResumeMarks(p.f.state), data, 0) == p.trace
  {
    var m := ResumeMarks(p.f.state);
    if m != NO_MARKS {
      var ph := PhaseAfter(p.trace).value;
      assert Fits(p.f, ph, Tail(p.trace));
      var e := Due(m, data, 0).value;
      assert e.text == "";
      assert EndsWith(p.trace, e.kind);
      EmitNothing(p.trace, e.kind);
    }
  }

  /** The body mark after MARK(body) at `p`. */
  function MarkBody(m: Marks, p: nat): Marks { if m.body == None then m.(body := Some(p)) else m }

  /** Body bytes `p..q` behind the body mark. */
  lemma BodyDue(calls: seq<Event>, s: State, m: Marks, data: string, p: nat, q: nat)
    requires TakesBody(s) && MarksFit(s, m, p) && p < q <= |data|
    ensures Due(MarkBody(m, p), data, q).Some?
    ensures TraceOf(calls, MarkBody(m, p), data, q) == Emit(TraceOf(calls, m, data, p), Data(Body, data[p..q]))
  {
    if m.body.Some? {
      DueGrowsTo(calls, m, data, p, q);
    }
  }
}
