/** The header limit: it changes nothing but when a run is stopped, and that is at the first
    header byte too many.
 */
module HttpLimit {
  import opened HttpTypes
  import opened HttpStep
  import opened HttpRun
  import opened HttpAgree
  import opened HttpReads

  /** What a byte does does not depend on the limit. */
  lemma {:induction false} ExecIgnoresLimit(cfg: Settings, limit: nat, p: Parser, ch: char, at: nat)
    ensures Exec(cfg.(limit := limit), p, ch, at) == Exec(cfg, p, ch, at)
    decreases Rank(p.f.state)
  {
    hide Exec, Step, Rank;
    StepIgnoresLimit(cfg, limit, p, ch);
    ExecOnce(cfg, p, ch, at);
    ExecOnce(cfg.(limit := limit), p, ch, at);
    var a := Step(cfg, p, ch);
    if a.Again? {
      ExecIgnoresLimit(cfg, limit, After(p, a), ch, at);
    }
  }

  lemma StepIgnoresLimit(cfg: Settings, limit: nat, p: Parser, ch: char)
    ensures Step(cfg.(limit := limit), p, ch) == Step(cfg, p, ch)
  {
  }

  /** Executing a byte counts none. */
  lemma StepCountsNone(cfg: Settings, p: Parser, ch: char)
    ensures var a := Step(cfg, p, ch);
            a.Error? || a.f.nread <= p.f.nread
  {
    var s := p.f.state;
    if InValue(s) {
      ValueCountsNone(p.f, ch);
    } else if s == ReqSpacesBeforeUrl || InUrl(s) {
      UrlCountsNone(p.f, ch);
    }
    hide StepHeaderValue, StepUrl, UrlChar;
  }

  lemma ValueCountsNone(f: Fields, ch: char)
    ensures var a := StepHeaderValue(f, ch);
            a.Error? || a.f.nread <= f.nread
  {
    hide ValueStep, ValueStart;
  }

  lemma UrlCountsNone(f: Fields, ch: char)
    ensures var a := StepUrl(f, ch);
            a.Error? || a.f.nread <= f.nread
  {
    hide UrlChar;
  }

  predicate CountsAtMost(r: Result, n: nat) { r.Failed? || r.p.f.nread <= n }

  lemma {:induction false} ExecCountsNone(cfg: Settings, p: Parser, ch: char, at: nat)
    ensures CountsAtMost(Exec(cfg, p, ch, at), p.f.nread)
    decreases Rank(p.f.state)
  {
    hide Exec, Step, Rank;
    StepCountsNone(cfg, p, ch);
    ExecOnce(cfg, p, ch, at);
    var a := Step(cfg, p, ch);
    if a.Again? {
      ExecCountsNone(cfg, After(p, a), ch, at);
    }
  }

  /** A byte adds at most one to the count, and in a body nothing. */
  lemma ByteCountsOne(cfg: Settings, p: Parser, ch: char, at: nat)
    ensures CountsAtMost(Byte(cfg, p, ch, at), if ParsingHeader(p.f.state) then p.f.nread + 1 else p.f.nread)
  {
    hide Exec;
    ExecCountsNone(cfg, Counted(p), ch, at);
  }

  lemma {:induction false} RunCounts(cfg: Settings, p: Parser, text: string)
    ensures CountsAtMost(Run(cfg, p, text), p.f.nread + |text|)
  {
    hide Byte;
    if text != "" {
      var n := |text| - 1;
      RunCounts(cfg, p, text[..n]);
      var r := Run(cfg, p, text[..n]);
      if r.Running? {
        ByteCountsOne(cfg, r.p, text[n], n);
      }
    }
  }

  /** As long as no more bytes have come than the limit leaves room for, it makes no difference. */
  lemma {:induction false} WithinLimit(cfg: Settings, limit: nat, p: Parser, text: string)
    requires Room(cfg, p, |text|) && cfg.limit <= limit
    ensures Run(cfg, p, text) == Run(cfg.(limit := limit), p, text)
  {
    hide Exec;
    if text != "" {
      var n := |text| - 1;
      WithinLimit(cfg, limit, p, text[..n]);
      RunCounts(cfg, p, text[..n]);
      var r := Run(cfg, p, text[..n]);
      if r.Running? {
        ExecIgnoresLimit(cfg, limit, Counted(r.p), text[n], n);
      }
    }
  }

  /** A text all bytes of which count, if the limit allows them, and one more such byte: with less
      room than that the run fails at exactly the first byte too many. */
  lemma {:induction false} OverflowsAt(cfg: Settings, limit: nat, p: Parser, text: string, q: Parser, ch: char)
    requires Reads(cfg.(limit := limit), p, text, q) && cfg.limit <= limit
    requires q.f.nread == p.f.nread + |text| && ParsingHeader(q.f.state)
    requires p.f.nread <= cfg.limit < p.f.nread + |text| + 1
    ensures Run(cfg, p, text + [ch]) == Failed(HeaderOverflow, cfg.limit - p.f.nread)
    decreases |text|
  {
    hide Run, Exec;
    var n := |text|;
    assert (text + [ch])[..n] == text && (text + [ch])[..n + 1] == text + [ch];
    RunSnoc(cfg, p, text + [ch], n);
    if p.f.nread + n == cfg.limit {
      WithinLimit(cfg, limit, p, text);
    } else {
      var w := LastCounted(cfg, limit, p, text, q);
      OverflowsAt(cfg, limit, p, text[..n - 1], w, text[n - 1]);
      assert text[..n - 1] + [text[n - 1]] == text;
    }
  }

  /** If every byte has counted, so has the last one. */
  lemma LastCounted(cfg: Settings, limit: nat, p: Parser, text: string, q: Parser) returns (w: Parser)
    requires Reads(cfg.(limit := limit), p, text, q) && text != "" && q.f.nread == p.f.nread + |text|
    ensures Reads(cfg.(limit := limit), p, text[..|text| - 1], w)
    ensures w.f.nread == p.f.nread + |text| - 1 && ParsingHeader(w.f.state)
  {
    hide Byte, Run;
    var n := |text| - 1;
    var big := cfg.(limit := limit);
    assert text[..n + 1] == text;
    RunSnoc(big, p, text, n);
    w := Run(big, p, text[..n]).p;
    RunCounts(big, p, text[..n]);
    ByteCountsOne(big, w, text[n], n);
  }
}
