/** What the parser accepts as a request line, exactly: what can be printed from legal parts. */
module HttpRequestLines {
  import opened HttpTypes
  import opened HttpStep
  import opened HttpRun
  import opened HttpReads
  import opened HttpNames
  import opened HttpHeads
  import opened HttpLines
  import opened HttpMessages

  // ---------------------------------------------------------------- the method of a request line

  lemma MethodNeedsSpace(cfg: Settings, p: Parser, l: string, eol: string)
    requires p.f.state == StartReq && l != "" && IsBare(l) && ' ' !in l && IsEol(eol) && Room(cfg, p, |l + eol|)
    ensures Run(cfg, p, l + eol).Failed?
  {
    hide Run, Step, MethodString, MethodWalk, StepMethod;
    MethodReads(cfg, p, l);
    EolBegins(eol);
    if MethodWalk(l).Some? {
      var q := AfterMethod(p, l);
      StepOfMethod(cfg, Counted(q), CR);
      StepOfMethod(cfg, Counted(q), LF);
      EolNoMethod(Counted(q).f);
      EolRefused(cfg, q, eol);
      RunAppend(cfg, p, l, eol);
    } else {
      assert (l + eol)[..|l|] == l;
      RunStays(cfg, p, l + eol, |l|);
    }
  }

  lemma EolNoMethod(f: Fields)
    ensures StepMethod(f, CR).Error? && StepMethod(f, LF).Error?
  {
    if f.index < |MethodString(f.meth)| {
      MethodChars(f.meth, f.index);
    }
    hide MethodString, OtherMethod;
  }

  lemma SpaceNoMethod(cfg: Settings, p: Parser)
    requires p.f.state == StartReq
    ensures Step(cfg, p, ' ').Error?
  {
  }

  /** The line begins with a method and a space. */
  lemma MethodFirst(cfg: Settings, p: Parser, l: string, eol: string) returns (m: Method)
    requires p.f.state == StartReq && l != "" && IsBare(l) && IsEol(eol) && Room(cfg, p, |l + eol|)
    requires Run(cfg, p, l + eol).Running?
    ensures MethodString(m) + " " <= l
  {
    hide Run, Step, MethodString;
    if ' ' !in l {
      MethodNeedsSpace(cfg, p, l, eol);
    }
    var n := Before(l, ' ');
    if n == 0 {
      SpaceNoMethod(cfg, Counted(p));
      ByteRefused(cfg, p, l + eol);
    }
    var w := l[..n];
    assert l + eol == w + " " + (l[n + 1..] + eol);
    RunsBoth(cfg, p, w + " ", l[n + 1..] + eol);
    MethodIsLookup(cfg, p, w);
    m :| MethodString(m) == w;
    assert l[..n + 1] == w + " ";
  }

  /** The method and the spaces behind it; not everything is spaces. */
  lemma MethodTaken(cfg: Settings, p: Parser, l: string, eol: string) returns (m: Method, space: string, rest: string)
    requires p.f.state == StartReq && l != "" && IsBare(l) && IsEol(eol) && Room(cfg, p, |l + eol|)
    requires Run(cfg, p, l + eol).Running?
    ensures l == MethodString(m) + space + rest && IsSpace(space) && rest != "" && rest[0] != ' '
    ensures Run(cfg, AfterMethodSpace(p, m, space), rest + eol) == Run(cfg, p, l + eol)
  {
    hide Run, Step, MethodString, AfterMethodSpace, IsBare;
    m := MethodFirst(cfg, p, l, eol);
    var n := |MethodString(m)|;
    assert l[n] == ' ' by { assert l[n] == (MethodString(m) + " ")[n]; }
    var k := Spaces(l[n..]);
    space, rest := l[n..n + k], l[n + k..];
    SpacesBehind(l, n);
    MethodSpaceReads(cfg, p, m, space);
    assert l + eol == MethodString(m) + space + (rest + eol);
    RunsBoth(cfg, p, MethodString(m) + space, rest + eol);
    if rest == "" {
      assert rest + eol == eol;
      NoUrl(cfg, p, m, space, eol);
    }
  }

  /** The spaces from n on, and what is behind them. */
  lemma SpacesBehind(l: string, n: nat)
    requires n < |l| && l[n] == ' '
    ensures var k := Spaces(l[n..]);
            n + k <= |l| && IsSpace(l[n..n + k]) && (n + k < |l| ==> l[n + k] != ' ')
  {
    var k := Spaces(l[n..]);
    assert l[n..][0] == l[n];
    if n + k < |l| {
      assert l[n..][k] == l[n + k];
    }
  }

  lemma NoUrl(cfg: Settings, p: Parser, m: Method, space: string, eol: string)
    requires IsEol(eol) && Room(cfg, p, |MethodString(m) + space| + 1)
    ensures Run(cfg, AfterMethodSpace(p, m, space), eol).Failed?
  {
    hide Run, Step, Emit, MethodString;
    var q := AfterMethodSpace(p, m, space);
    StepOfUrl(cfg, Counted(q), CR);
    StepOfUrl(cfg, Counted(q), LF);
    EolRefused(cfg, q, eol);
  }

  // ---------------------------------------------------------------- the URL

  /** A byte that the automaton does not take. */
  lemma UrlByteRefused(cfg: Settings, p: Parser, ch: char)
    requires (p.f.state == ReqSpacesBeforeUrl && ch != ' ' && UrlChar(UrlWalk(p.f.meth, ""), ch) == Dead)
             || (InUrl(p.f.state) && UrlChar(p.f.state, ch) == Dead
                 && (UrlEndableState(p.f.state) ==> ch != ' ' && ch != CR && ch != LF))
    ensures Step(cfg, p, ch) == Error(InvalidUrl)
  {
    hide UrlChar;
  }

  /** A text without spaces is read as a URL exactly as far as the automaton takes it. */
  lemma {:induction false} UrlOutcome(cfg: Settings, p: Parser, url: string)
    requires p.f.state == ReqSpacesBeforeUrl && url != "" && ' ' !in url && IsBare(url) && Room(cfg, p, |url|)
    ensures if UrlWalk(p.f.meth, url) != Dead then Reads(cfg, p, url, AfterUrl(p, url))
            else Run(cfg, p, url).Failed? && Run(cfg, p, url).e == InvalidUrl
  {
    hide Run, Step, Emit, UrlChar, Reads;
    var n := |url| - 1;
    if UrlWalk(p.f.meth, url) != Dead {
      UrlReads(cfg, p, url);
    } else if n == 0 {
      ReadsNothing(cfg, p);
      assert url[..0] == "";
      UrlByteRefused(cfg, Counted(p), url[0]);
      FailsByte(cfg, p, "", p, url[0]);
      assert "" + [url[0]] == url;
    } else {
      var v := url[..n];
      assert url == v + [url[n]];
      UrlOutcome(cfg, p, v);
      if UrlWalk(p.f.meth, v) != Dead {
        UrlWalkLives(p.f.meth, v);
        var q := AfterUrl(p, v);
        UrlByteRefused(cfg, Counted(q), url[n]);
        FailsByte(cfg, p, v, q, url[n]);
      } else {
        RunStays(cfg, p, url, n);
      }
    }
  }

  /** A space or a line end is no part of a URL. */
  lemma BlankEndsUrl(cfg: Settings, p: Parser, ch: char)
    requires InUrl(p.f.state) && (ch == ' ' || ch == CR || ch == LF)
    ensures !UrlEndableState(p.f.state) ==> Step(cfg, p, ch) == Error(InvalidUrl)
  {
  }

  /** The URL, which a space or the end of the line ends. */
  lemma UrlTaken(cfg: Settings, p: Parser, rest: string, eol: string) returns (url: string, tail: string)
    requires p.f.state == ReqSpacesBeforeUrl && rest != "" && rest[0] != ' ' && IsBare(rest) && IsEol(eol)
    requires Room(cfg, p, |rest + eol|) && Run(cfg, p, rest + eol).Running?
    ensures rest == url + tail && IsUrl(p.f.meth, url) && (tail != "" ==> tail[0] == ' ')
    ensures Run(cfg, AfterUrl(p, url), tail + eol) == Run(cfg, p, rest + eol)
  {
    hide Run, Step, Emit, UrlChar, UrlWalk;
    var n := Before(rest, ' ');
    url, tail := rest[..n], rest[n..];
    assert rest + eol == url + (tail + eol);
    RunsBoth(cfg, p, url, tail + eol);
    UrlOutcome(cfg, p, url);
    UrlWalkLives(p.f.meth, url);
    var q := AfterUrl(p, url);
    EolBegins(eol);
    var ch := (tail + eol)[0];
    BlankEndsUrl(cfg, Counted(q), ch);
    if !UrlEndableState(q.f.state) {
      ByteRefused(cfg, q, tail + eol);
    }
  }

  // ---------------------------------------------------------------- the version

  predicate IsProtocol(m: Method, s: string) { s == "HTTP/" || (m == Source && s == "ICE/") }

  /** The version, as far as it is read, by the state behind it. */
  predicate VersionRead(f: Fields, t: string) {
    var s, n := f.state, |t|;
    if s == ReqHttpStart then t == ""
    else if s == ReqHttpH then t == "H"
    else if s == ReqHttpHT then t == "HT"
    else if s == ReqHttpHTT then t == "HTT"
    else if s == ReqHttpI then t == "I" && f.meth == Source
    else if s == ReqHttpIC then t == "IC" && f.meth == Source
    else if s == ReqHttpHTTP then t == "HTTP" || (t == "ICE" && f.meth == Source)
    else if s == ReqHttpMajor then IsProtocol(f.meth, t)
    else if s == ReqHttpDot then n > 0 && IsProtocol(f.meth, t[..n - 1]) && IsNum(t[n - 1])
    else if s == ReqHttpMinor then
      n > 1 && IsProtocol(f.meth, t[..n - 2]) && IsNum(t[n - 2]) && t[n - 1] == '.'
    else
      && s == ReqHttpEnd && n > 2 && IsProtocol(f.meth, t[..n - 3]) && IsNum(t[n - 3]) && t[n - 2] == '.'
      && IsNum(t[n - 1])
  }

  lemma VersionNext(f: Fields, t: string, ch: char)
    requires VersionRead(f, t) && ch != CR && ch != LF && (t == "" ==> ch != ' ')
    ensures var a := StepRequestVersion(f, ch);
            a.Error? || (a.Break? && VersionRead(a.f, t + [ch]) && a.f.meth == f.meth)
  {
    var n, u := |t|, t + [ch];
    assert u[..n] == t;
    if n > 0 {
      assert u[..n - 1] == t[..n - 1];
    }
    if n > 1 {
      assert u[..n - 2] == t[..n - 2];
    }
  }

  lemma VersionStates(f: Fields, t: string)
    requires VersionRead(f, t)
    ensures InVersion(f.state) && ParsingHeader(f.state) && f.state != ReqLineAlmostDone
  {
  }

  lemma {:induction false} VersionReadBy(cfg: Settings, p: Parser, t: string)
    requires p.f.state == ReqHttpStart && IsBare(t) && (t != "" ==> t[0] != ' ') && Room(cfg, p, |t|)
    requires Run(cfg, p, t).Running?
    ensures var q := Run(cfg, p, t).p;
            VersionRead(q.f, t) && q.f.meth == p.f.meth && q.f.nread == p.f.nread + |t|
  {
    hide Run, Step, VersionRead, StepRequestVersion;
    ReadsNothing(cfg, p);
    if t == "" {
      VersionReadStart(p.f);
    } else {
      var n := |t| - 1;
      var v, ch := t[..n], t[n];
      assert t == v + [ch];
      RunsBoth(cfg, p, v, [ch]);
      VersionReadBy(cfg, p, v);
      var q := Run(cfg, p, v).p;
      VersionStates(q.f, v);
      CountsVersion(q.f, v);
      StepOfVersion(cfg, Counted(q), ch);
      VersionNext(Counted(q).f, v, ch);
      if StepRequestVersion(Counted(q).f, ch).Error? {
        FailsByte(cfg, p, v, q, ch);
      } else {
        ReadsByte(cfg, p, v, q, ch);
        StepKeepsCount(Counted(q).f, ch);
      }
    }
  }

  lemma VersionReadStart(f: Fields)
    requires f.state == ReqHttpStart
    ensures VersionRead(f, "")
  {
  }

  lemma CountsVersion(f: Fields, t: string)
    requires VersionRead(f, t)
    ensures VersionRead(f.(nread := f.nread + 1), t)
  {
  }

  lemma StepKeepsCount(f: Fields, ch: char)
    ensures StepRequestVersion(f, ch).Break? ==> StepRequestVersion(f, ch).f.nread == f.nread
  {
  }

  lemma EolAfterVersion(f: Fields, t: string, ch: char)
    requires VersionRead(f, t) && (ch == CR || ch == LF)
    ensures f.state != ReqHttpEnd ==> StepRequestVersion(f, ch).Error?
  {
  }

  /** What follows the URL is nothing or a version. */
  lemma VersionTaken(cfg: Settings, p: Parser, tail: string, eol: string) returns (v: Version)
    requires UrlEndableState(p.f.state) && IsBare(tail) && IsEol(eol) && (tail != "" ==> tail[0] == ' ')
    requires Room(cfg, p, |tail + eol|) && Run(cfg, p, tail + eol).Running?
    ensures IsVersion(p.f.meth, v) && VersionText(v) == tail
  {
    hide Run, Step, VersionRead, StepRequestVersion;
    if tail == "" {
      v := Simple;
    } else {
      var k := Spaces(tail);
      var space, t := tail[..k], tail[k..];
      UrlSpaceReads(cfg, p, space);
      var a := Parser(p.f.(state := ReqHttpStart, nread := p.f.nread + k), p.trace);
      assert tail + eol == space + (t + eol);
      RunsBoth(cfg, p, space, t + eol);
      RunsBoth(cfg, a, t, eol);
      VersionReadBy(cfg, a, t);
      var q := Run(cfg, a, t).p;
      VersionStates(q.f, t);
      CountsVersion(q.f, t);
      StepOfVersion(cfg, Counted(q), CR);
      StepOfVersion(cfg, Counted(q), LF);
      EolAfterVersion(Counted(q).f, t, CR);
      EolAfterVersion(Counted(q).f, t, LF);
      if q.f.state != ReqHttpEnd {
        EolRefused(cfg, q, eol);
      }
      v := VersionIs(q.f, space, t);
    }
  }

  lemma VersionIs(f: Fields, space: string, t: string) returns (v: Version)
    requires VersionRead(f, t) && f.state == ReqHttpEnd && IsSpace(space)
    ensures IsVersion(f.meth, v) && VersionText(v) == space + t
  {
    var n := |t|;
    v := if t[..n - 3] == "HTTP/" then Http(space, t[n - 3], t[n - 1]) else Ice(space, t[n - 3], t[n - 1]);
    assert t == t[..n - 3] + [t[n - 3], '.', t[n - 1]];
  }

  // ---------------------------------------------------------------- request lines

  /** What is accepted as a request line can be printed from legal parts. */
  lemma LineIsRequest(cfg: Settings, p: Parser, l: string, eol: string) returns (r: HttpRequest)
    requires p.f.state == StartReq && l != "" && IsBare(l) && IsEol(eol) && Room(cfg, p, |l + eol|)
    requires Run(cfg, p, l + eol).Running?
    ensures IsLine(r) && RequestLine(r) == l + eol
  {
    hide Run, MethodString, UrlWalk, UrlEndableState, VersionText, IsVersion, IsEol, AfterUrl;
    var m, space, rest := MethodTaken(cfg, p, l, eol);
    var a := AfterMethodSpace(p, m, space);
    var url, tail := UrlTaken(cfg, a, rest, eol);
    UrlTells(a, url);
    var v := VersionTaken(cfg, AfterUrl(a, url), tail, eol);
    r := HttpRequest("", m, space, url, v, eol, [], NoContent);
    assert l + eol == "" + (MethodString(m) + space) + url + (tail + eol);
  }

  lemma UrlTells(p: Parser, url: string)
    requires IsUrl(p.f.meth, url)
    ensures var q := AfterUrl(p, url);
            UrlEndableState(q.f.state) && q.f.meth == p.f.meth && q.f.nread == p.f.nread + |url|
  {
  }

  /** Exactly what can be printed from legal parts is accepted as a request line. */
  lemma RequestLineAccepted(cfg: Settings, p: Parser, l: string, eol: string)
    requires p.f.state == StartReq && l != "" && IsBare(l) && IsEol(eol) && Room(cfg, p, |l + eol|)
    ensures Run(cfg, p, l + eol).Running? <==> exists r :: IsLine(r) && RequestLine(r) == l + eol
    ensures Run(cfg, p, l + eol).Running? ==> Run(cfg, p, l + eol).p.f.state == HeaderFieldStart
  {
    hide Run, IsLine, RequestLine, IsEol;
    if Run(cfg, p, l + eol).Running? {
      var r := LineIsRequest(cfg, p, l, eol);
      RequestLineReads(cfg, p, r);
    } else {
      forall r | IsLine(r) && RequestLine(r) == l + eol ensures false {
        RequestLineReads(cfg, p, r);
      }
    }
  }
}
