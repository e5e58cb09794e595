/** Runs put together from bytes and pieces that cause no error. */
module HttpReads {
  import opened HttpTypes
  import opened HttpStep
  import opened HttpRun
  import opened HttpAgree

  /** From `p`, the parser reads `text` without an error and is then in `q`. */
  predicate Reads(cfg: Settings, p: Parser, text: string, q: Parser) {
    Run(cfg, p, text) == Running(q)
  }

  /** The bytes of a header are counted, and there is room for `n` more of them. */
  predicate Room(cfg: Settings, p: Parser, n: nat) {
    p.f.nread + n <= cfg.limit
  }

  lemma ReadsNothing(cfg: Settings, p: Parser)
    ensures Reads(cfg, p, "", p)
  {
  }

  lemma ReadsThen(cfg: Settings, p: Parser, a: string, q: Parser, b: string, r: Parser)
    requires Reads(cfg, p, a, q) && Reads(cfg, q, b, r)
    ensures Reads(cfg, p, a + b, r)
  {
    hide Run;
    RunAppend(cfg, p, a, b);
  }

  /** One more byte, which its state consumes. */
  lemma ReadsByte(cfg: Settings, p: Parser, a: string, q: Parser, ch: char)
    requires Reads(cfg, p, a, q)
    requires ParsingHeader(q.f.state) ==> Room(cfg, q, 1)
    requires Step(cfg, Counted(q), ch).Break?
    ensures Reads(cfg, p, a + [ch], After(Counted(q), Step(cfg, Counted(q), ch)))
  {
    hide Exec, Step;
    assert (a + [ch])[..|a|] == a;
    ExecOnce(cfg, Counted(q), ch, |a|);
  }

  /** One more byte, which its state refuses. */
  lemma FailsByte(cfg: Settings, p: Parser, a: string, q: Parser, ch: char)
    requires Reads(cfg, p, a, q)
    requires ParsingHeader(q.f.state) ==> Room(cfg, q, 1)
    requires Step(cfg, Counted(q), ch).Error?
    ensures Run(cfg, p, a + [ch]) == Failed(Step(cfg, Counted(q), ch).e, |a|)
  {
    hide Exec, Step;
    assert (a + [ch])[..|a|] == a;
    ExecOnce(cfg, Counted(q), ch, |a|);
  }

  /** A byte that one state hands on to another one. */
  lemma ReadsAgain(cfg: Settings, p: Parser, a: string, q: Parser, ch: char)
    requires Reads(cfg, p, a, q)
    requires ParsingHeader(q.f.state) ==> Room(cfg, q, 1)
    requires Step(cfg, Counted(q), ch).Again?
    ensures Run(cfg, p, a + [ch]) == Exec(cfg, After(Counted(q), Step(cfg, Counted(q), ch)), ch, |a|)
  {
    hide Exec, Step;
    assert (a + [ch])[..|a|] == a;
    ExecOnce(cfg, Counted(q), ch, |a|);
  }
}
