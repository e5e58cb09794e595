/** Runs of the byte machine over input that arrives in pieces. */
module HttpRun {
  import opened Sequences
  import opened HttpTypes
  import opened HttpStep

  lemma RunSnoc(cfg: Settings, p: Parser, data: string, k: nat)
    requires k < |data|
    ensures Run(cfg, p, data[..k + 1]) == (match Run(cfg, p, data[..k])
                                           case Running(q) => Byte(cfg, q, data[k], k)
                                           case Exited(q, n) => Exited(q, n)
                                           case Failed(e, at) => Failed(e, at))
  {
    assert data[..k + 1][..k] == data[..k];
  }

  /** A run that has ended stays ended, whatever follows. */
  lemma {:induction false} RunStays(cfg: Settings, p: Parser, data: string, k: nat)
    requires k <= |data|
    requires !Run(cfg, p, data[..k]).Running?
    ensures Run(cfg, p, data) == Run(cfg, p, data[..k])
    decreases |data| - k
  {
    if k == |data| {
      assert data[..k] == data;
    } else {
      RunSnoc(cfg, p, data, k);
      RunStays(cfg, p, data, k + 1);
    }
  }

  /** A run that fails at a byte was still going on before it. */
  lemma {:induction false} RunFailsAt(cfg: Settings, p: Parser, data: string)
    requires Run(cfg, p, data).Failed?
    ensures var at := Run(cfg, p, data).at;
            at < |data| && Run(cfg, p, data[..at]).Running?
  {
    hide Byte;
    var n := |data| - 1;
    var r := Run(cfg, p, data[..n]);
    if r.Failed? {
      RunFailsAt(cfg, p, data[..n]);
      assert data[..n][..r.at] == data[..r.at];
    } else {
      ByteFailsAt(cfg, r.p, data[n], n);
    }
  }

  lemma ByteFailsAt(cfg: Settings, p: Parser, ch: char, at: nat)
    ensures Byte(cfg, p, ch, at).Failed? ==> Byte(cfg, p, ch, at).at == at
  {
    ExecFailsAt(cfg, Counted(p), ch, at);
  }

  lemma {:induction false} ExecFailsAt(cfg: Settings, p: Parser, ch: char, at: nat)
    ensures Exec(cfg, p, ch, at).Failed? ==> Exec(cfg, p, ch, at).at == at
    decreases Rank(p.f.state)
  {
    var a := Step(cfg, p, ch);
    if a.Again? {
      ExecFailsAt(cfg, After(p, a), ch, at);
    }
  }

  // ---------------------------------------------------------------- concatenation

  function Shift(r: Result, k: nat): Result {
    match r
    case Running(p) => Running(p)
    case Exited(p, n) => Exited(p, n + k)
    case Failed(e, at) => Failed(e, at + k)
  }

  lemma {:induction false} ExecShift(cfg: Settings, p: Parser, ch: char, at: nat, k: nat)
    ensures Exec(cfg, p, ch, at + k) == Shift(Exec(cfg, p, ch, at), k)
    decreases Rank(p.f.state)
  {
    var a := Step(cfg, p, ch);
    if a.Again? {
      ExecShift(cfg, After(p, a), ch, at, k);
    }
  }

  lemma ByteShift(cfg: Settings, p: Parser, ch: char, at: nat, k: nat)
    ensures Byte(cfg, p, ch, at + k) == Shift(Byte(cfg, p, ch, at), k)
  {
    ExecShift(cfg, Counted(p), ch, at, k);
  }

  /** What follows when a run that came to `r` after `k` bytes gets more data. */
  function Onward(cfg: Settings, r: Result, data: string, k: nat): Result {
    match r
    case Running(q) => Shift(Run(cfg, q, data), k)
    case Exited(q, n) => Exited(q, n)
    case Failed(e, at) => Failed(e, at)
  }

  /** A run over two buffers in a row is the run over their concatenation. */
  lemma {:induction false} RunAppend(cfg: Settings, p: Parser, a: string, b: string)
    ensures Run(cfg, p, a + b) == Onward(cfg, Run(cfg, p, a), b, |a|)
  {
    hide Byte, Exec;
    if b == [] {
      assert a + b == a;
    } else {
      var n := |b| - 1;
      assert (a + b)[..|a| + n] == a + b[..n];
      assert (a + b)[..|a| + n + 1] == a + b && b[..n + 1] == b && (a + b)[|a| + n] == b[n];
      RunSnoc(cfg, p, a + b, |a| + n);
      RunAppend(cfg, p, a, b[..n]);
      var r := Run(cfg, p, a);
      if r.Running? {
        RunSnoc(cfg, r.p, b, n);
        var s := Run(cfg, r.p, b[..n]);
        if s.Running? {
          ByteShift(cfg, s.p, b[n], n, |a|);
        }
      }
    }
  }

  // ---------------------------------------------------------------- any number of pieces

  /** What a client gets who passes the buffers on one after the other, until one of them
      ends the run. */
  function RunAll(cfg: Settings, p: Parser, buffers: seq<string>): Result
    decreases |buffers|
  {
    if buffers == [] then Running(p)
    else
      match Run(cfg, p, buffers[0])
      case Running(q) => Shift(RunAll(cfg, q, buffers[1..]), |buffers[0]|)
      case Exited(q, n) => Exited(q, n)
      case Failed(e, at) => Failed(e, at)
  }

  /** Cut independence: however the input is cut into buffers, the parser ends in the same
      fields with the same callbacks, or leaves or fails at the same byte. */
  lemma {:induction false} CutIndependence(cfg: Settings, p: Parser, buffers: seq<string>)
    ensures RunAll(cfg, p, buffers) == Run(cfg, p, Flatten(buffers))
    decreases |buffers|
  {
    if buffers != [] {
      var a, b := buffers[0], Flatten(buffers[1..]);
      RunAppend(cfg, p, a, b);
      var r := Run(cfg, p, a);
      if r.Running? {
        CutIndependence(cfg, r.p, buffers[1..]);
      }
    }
  }
}
