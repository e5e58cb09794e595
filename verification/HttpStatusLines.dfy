/** What the parser accepts as a status line, exactly: what can be printed from legal parts. */
module HttpStatusLines {
  import opened Options
  import opened HttpTypes
  import opened HttpStep
  import opened HttpReads
  import opened HttpBodies
  import opened HttpHeads
  import opened HttpLines
  import opened HttpResponses

  /** A status line up to its code. */
  function Front(r: HttpResponse): string { "HTTP" + (['/', r.major, '.', r.minor] + r.space) }

  /** The status line, as far as it is read, by the state behind it. */
  ghost predicate FrontRead(f: Fields, l: string, r: HttpResponse) {
    var s := f.state;
    if s == ResH then l == "H"
    else if s == ResHT then l == "HT"
    else if s == ResHTT then l == "HTT"
    else if s == ResHTTP then l == "HTTP"
    else if s == ResHttpMajor then l == "HTTP/"
    else if s == ResHttpDot then l == "HTTP/" + [r.major] && IsNum(r.major)
    else if s == ResHttpMinor then l == "HTTP/" + [r.major] + "." && IsNum(r.major)
    else s == ResHttpEnd && l == "HTTP/" + [r.major] + "." + [r.minor] && IsNum(r.major) && IsNum(r.minor)
  }

  ghost predicate CodeRead(f: Fields, l: string, r: HttpResponse) {
    var s := f.state;
    && IsNum(r.major) && IsNum(r.minor) && IsSpace(r.space)
    && if s == ResFirstStatusCode then l == Front(r)
       else
         && IsCode(r.code) && f.statusCode == Decimal(r.code)
         && if s == ResStatusCode then l == Front(r) + r.code
            else if s == ResStatusStart then l == Front(r) + r.code + " "
            else
              && s == ResStatus && r.reason.Some? && r.reason.value != "" && IsReason(r.reason.value)
              && l == Front(r) + r.code + (" " + r.reason.value)
  }

  ghost predicate StatusRead(f: Fields, l: string, r: HttpResponse) {
    if f.state <= ResHttpEnd then FrontRead(f, l, r) else CodeRead(f, l, r)
  }

  lemma FrontNext(f: Fields, l: string, r: HttpResponse, ch: char) returns (t: HttpResponse)
    requires f.state <= ResHttpEnd && FrontRead(f, l, r) && StepStatusLine(f, ch).Break?
    ensures StatusRead(StepStatusLine(f, ch).f, l + [ch], t)
  {
    t := if f.state == ResHttpMajor then r.(major := ch)
         else if f.state == ResHttpMinor then r.(minor := ch)
         else if f.state == ResHttpEnd then r.(space := " ") else r;
    if f.state == ResHttpEnd {
      assert l + [ch] == Front(t);
    }
  }

  lemma CodeNext(f: Fields, l: string, r: HttpResponse, ch: char) returns (t: HttpResponse)
    requires f.state > ResHttpEnd && CodeRead(f, l, r) && ch != CR && ch != LF && StepStatusLine(f, ch).Break?
    ensures CodeRead(StepStatusLine(f, ch).f, l + [ch], t) && StepStatusLine(f, ch).f.state > ResHttpEnd
  {
    hide Decimal;
    if f.state == ResFirstStatusCode {
      t := FirstCodeNext(f, l, r, ch);
    } else if f.state == ResStatusCode {
      t := NextCodeNext(f, l, r, ch);
    } else if f.state == ResStatusStart {
      t := r.(reason := Some([ch]));
      assert l + [ch] == Front(t) + t.code + (" " + [ch]);
    } else {
      t := r.(reason := Some(r.reason.value + [ch]));
      assert l + [ch] == Front(t) + t.code + (" " + t.reason.value);
    }
  }

  lemma FirstCodeNext(f: Fields, l: string, r: HttpResponse, ch: char) returns (t: HttpResponse)
    requires f.state == ResFirstStatusCode && CodeRead(f, l, r) && StepStatusLine(f, ch).Break?
    ensures CodeRead(StepStatusLine(f, ch).f, l + [ch], t) && StepStatusLine(f, ch).f.state > ResHttpEnd
  {
    if ch == ' ' {
      t := r.(space := r.space + " ");
      assert l + [ch] == Front(t);
    } else {
      t := r.(code := [ch]);
      assert t.code[..0] == "" && Decimal(t.code) == Digit(ch);
      assert l + [ch] == Front(t) + t.code;
    }
  }

  lemma NextCodeNext(f: Fields, l: string, r: HttpResponse, ch: char) returns (t: HttpResponse)
    requires f.state == ResStatusCode && CodeRead(f, l, r) && ch != CR && ch != LF && StepStatusLine(f, ch).Break?
    ensures CodeRead(StepStatusLine(f, ch).f, l + [ch], t) && StepStatusLine(f, ch).f.state > ResHttpEnd
  {
    if ch == ' ' {
      t := r;
    } else {
      t := r.(code := r.code + [ch]);
      assert t.code[..|r.code|] == r.code && Decimal(t.code) == Decimal(r.code) * 10 + Digit(ch);
      assert l + [ch] == Front(t) + t.code;
    }
  }

  lemma StatusStates(f: Fields, l: string, r: HttpResponse)
    requires StatusRead(f, l, r)
    ensures InStatusLine(f.state) && f.state != ResLineAlmostDone
    ensures StatusRead(f.(nread := f.nread + 1), l, r)
  {
    hide Decimal;
  }

  lemma StepTells(f: Fields, ch: char)
    requires InStatusLine(f.state) && ch != CR && ch != LF
    ensures var a := StepStatusLine(f, ch); a.Error? || (a.Break? && a.f.nread == f.nread)
  {
  }

  lemma {:induction false} StatusReadBy(cfg: Settings, p: Parser, l: string) returns (r: HttpResponse)
    requires p.f.state == StartRes && l != "" && IsBare(l) && Room(cfg, p, |l|) && Run(cfg, p, l).Running?
    ensures var q := Run(cfg, p, l).p; StatusRead(q.f, l, r) && q.f.nread == p.f.nread + |l|
  {
    hide Run, Step, StatusRead, StepStatusLine;
    var n := |l| - 1;
    var v, ch := l[..n], l[n];
    assert l == v + [ch];
    if n == 0 {
      r := HttpResponse("", '1', '1', " ", "200", None, "\n", [], NoContent);
      ReadsNothing(cfg, p);
      StartsWithH(cfg, Counted(p), ch);
      if ch == 'H' {
        ReadsByte(cfg, p, v, p, ch);
        StartIsRead(Run(cfg, p, l).p.f, r);
      } else {
        FailsByte(cfg, p, v, p, ch);
      }
    } else {
      RunsBoth(cfg, p, v, [ch]);
      var u := StatusReadBy(cfg, p, v);
      var q := Run(cfg, p, v).p;
      StatusStates(q.f, v, u);
      StepOfStatusLine(cfg, Counted(q), ch);
      StepTells(Counted(q).f, ch);
      if StepStatusLine(Counted(q).f, ch).Error? {
        FailsByte(cfg, p, v, q, ch);
      } else {
        ReadsByte(cfg, p, v, q, ch);
        r := StatusNext(Counted(q).f, v, u, ch);
      }
    }
  }

  lemma StatusNext(f: Fields, l: string, r: HttpResponse, ch: char) returns (t: HttpResponse)
    requires StatusRead(f, l, r) && ch != CR && ch != LF && StepStatusLine(f, ch).Break?
    ensures StatusRead(StepStatusLine(f, ch).f, l + [ch], t)
  {
    hide FrontRead, CodeRead, StepStatusLine;
    if f.state <= ResHttpEnd {
      t := FrontNext(f, l, r, ch);
    } else {
      t := CodeNext(f, l, r, ch);
    }
  }

  lemma StartsWithH(cfg: Settings, p: Parser, ch: char)
    requires p.f.state == StartRes && ch != CR && ch != LF
    ensures if ch == 'H' then
              var a := Step(cfg, p, ch); a.Break? && a.f.state == ResH && a.f.nread == p.f.nread
            else Step(cfg, p, ch).Error?
  {
  }

  lemma StartIsRead(f: Fields, r: HttpResponse)
    requires f.state == ResH
    ensures StatusRead(f, "H", r)
  {
  }

  /** A line end is refused before the code is complete. */
  lemma EolBeforeCode(f: Fields, l: string, r: HttpResponse, ch: char)
    requires StatusRead(f, l, r) && (ch == CR || ch == LF) && f.state <= ResFirstStatusCode
    ensures StepStatusLine(f, ch).Error?
  {
  }

  /** What is accepted as a status line can be printed from legal parts. */
  lemma LineIsStatus(cfg: Settings, p: Parser, l: string, eol: string) returns (r: HttpResponse)
    requires p.f.state == StartRes && l != "" && IsBare(l) && IsEol(eol) && Room(cfg, p, |l + eol|)
    requires Run(cfg, p, l + eol).Running?
    ensures IsLine(r) && StatusLine(r) == l + eol
  {
    hide Run, Step, StatusRead, StepStatusLine, IsEol, IsLine, StatusLine;
    RunsBoth(cfg, p, l, eol);
    var t := StatusReadBy(cfg, p, l);
    var q := Run(cfg, p, l).p;
    EolBegins(eol);
    StatusStates(q.f, l, t);
    if q.f.state <= ResFirstStatusCode {
      StepOfStatusLine(cfg, Counted(q), CR);
      StepOfStatusLine(cfg, Counted(q), LF);
      EolBeforeCode(Counted(q).f, l, t, CR);
      EolBeforeCode(Counted(q).f, l, t, LF);
      EolRefused(cfg, q, eol);
    }
    r := StatusIs(q.f, l, t, eol);
  }

  lemma StatusIs(f: Fields, l: string, t: HttpResponse, eol: string) returns (r: HttpResponse)
    requires StatusRead(f, l, t) && f.state > ResFirstStatusCode && IsEol(eol)
    ensures IsLine(r) && StatusLine(r) == l + eol
  {
    hide Decimal, IsEol;
    var reason := if f.state == ResStatusCode then None else if f.state == ResStatusStart then Some("") else t.reason;
    r := t.(lead := "", eol := eol, reason := reason);
    assert l == Front(r) + r.code + ReasonText(reason);
    assert StatusLine(r) == "" + "HTTP" + (['/', r.major, '.', r.minor] + r.space) + r.code
           + (ReasonText(reason) + eol);
    assert "" + "HTTP" + (['/', r.major, '.', r.minor] + r.space) == Front(r);
    assert Front(r) + r.code + (ReasonText(reason) + eol) == l + eol;
  }

  /** Exactly what can be printed from legal parts is accepted as a status line. */
  lemma StatusLineAccepted(cfg: Settings, p: Parser, l: string, eol: string)
    requires p.f.state == StartRes && l != "" && IsBare(l) && IsEol(eol) && Room(cfg, p, |l + eol|)
    ensures Run(cfg, p, l + eol).Running? <==> exists r :: IsLine(r) && StatusLine(r) == l + eol
    ensures Run(cfg, p, l + eol).Running? ==> Run(cfg, p, l + eol).p.f.state == HeaderFieldStart
  {
    hide Run, IsLine, StatusLine, IsEol;
    if Run(cfg, p, l + eol).Running? {
      var r := LineIsStatus(cfg, p, l, eol);
      StatusLineReads(cfg, p, r);
    } else {
      forall r | IsLine(r) && StatusLine(r) == l + eol ensures false {
        StatusLineReads(cfg, p, r);
      }
    }
  }
}
