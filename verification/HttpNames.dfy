/** The incremental matchers of method tokens and header names against table lookup. */
module HttpNames {
  import opened Options
  import opened HttpTypes
  import opened HttpStep
  import opened HttpRun
  import opened HttpReads

  // ---------------------------------------------------------------- header names

  predicate IsToken(w: string) {
    |w| > 0 && forall i :: 0 <= i < |w| ==> TokenChar(w[i]) != '\0'
  }

  /** The name with its upper-case letters in lower case. */
  function Lowered(w: string): (r: string)
    ensures |r| == |w|
  {
    if w == "" then "" else Lowered(w[..|w| - 1]) + [TokenChar(w[|w| - 1])]
  }

  const CONNECTION := "connection"
  const PROXY_CONNECTION := "proxy-connection"
  const CONTENT_LENGTH := "content-length"
  const TRANSFER_ENCODING := "transfer-encoding"
  const UPGRADE := "upgrade"

  /** The header state and index that the matchers have after a whole (lower-cased) name. */
  function Matched(w: string): (HeaderState, nat)
    requires w != ""
  {
    var n := |w| - 1;
    if n == 0 then (FirstNameState(w[0]), 0)
    else
      var (hs, index) := Matched(w[..n]);
      (NameStep(hs, index, w[n]), if NameMatching(hs) then index + 1 else index)
  }

  /** `w` is the part of `name` that is read when the matcher's index is `index`. */
  predicate PartOf(w: string, name: string, index: nat) {
    |w| == index + 1 < |name| && w <= name
  }

  /** What the header state tells about the name read so far. */
  predicate Tells(hs: HeaderState, index: nat, w: string) {
    if hs == C then w == "c" && index == 0
    else if hs == CO then w == "co" && index == 1
    else if hs == CON then w == "con" && index == 2
    else if hs == MatchingConnection then PartOf(w, CONNECTION, index) && index >= 3
    else if hs == MatchingProxyConnection then PartOf(w, PROXY_CONNECTION, index)
    else if hs == MatchingContentLength then PartOf(w, CONTENT_LENGTH, index) && index >= 3
    else if hs == MatchingTransferEncoding then PartOf(w, TRANSFER_ENCODING, index)
    else if hs == MatchingUpgrade then PartOf(w, UPGRADE, index)
    else if hs == ConnectionName then w == CONNECTION || w == PROXY_CONNECTION
    else if hs == ContentLengthName then w == CONTENT_LENGTH
    else if hs == TransferEncodingName then w == TRANSFER_ENCODING
    else if hs == UpgradeName then w == UPGRADE
    else hs == General && Unknown(w)
  }

  /** A name that no known name begins with. */
  predicate Unknown(w: string) {
    !(w <= CONNECTION) && !(w <= PROXY_CONNECTION) && !(w <= CONTENT_LENGTH) && !(w <= TRANSFER_ENCODING)
        && !(w <= UPGRADE)
  }

  lemma NotPrefix(v: string, name: string, k: nat)
    requires k < |v| && (k >= |name| || v[k] != name[k])
    ensures !(v <= name)
  {
  }

  /** A name that agrees with `name`, but not with the other known names at the places told. */
  lemma LeavesName(w: string, c: char, name: string)
    requires w != "" && w <= name && !(w + [c] <= name)
    requires name == CONNECTION || name == PROXY_CONNECTION || name == CONTENT_LENGTH || name == TRANSFER_ENCODING
             || name == UPGRADE
    requires |w| >= 4 || name == PROXY_CONNECTION || name == TRANSFER_ENCODING || name == UPGRADE
    ensures Unknown(w + [c])
  {
    var v := w + [c];
    assert v[0] == name[0];
    if name != CONNECTION { NotPrefix(v, CONNECTION, if name == CONTENT_LENGTH then 3 else 0); }
    if name != PROXY_CONNECTION { NotPrefix(v, PROXY_CONNECTION, 0); }
    if name != CONTENT_LENGTH { NotPrefix(v, CONTENT_LENGTH, if name == CONNECTION then 3 else 0); }
    if name != TRANSFER_ENCODING { NotPrefix(v, TRANSFER_ENCODING, 0); }
    if name != UPGRADE { NotPrefix(v, UPGRADE, 0); }
  }

  /** The five names are distinguished by their first letter, or by the fourth. */
  lemma LeavesCommon(w: string, c: char)
    requires (w == "c" && c != 'o') || (w == "co" && c != 'n') || (w == "con" && c != 'n' && c != 't')
    ensures Unknown(w + [c])
  {
    var v := w + [c];
    NotPrefix(v, CONNECTION, |w|);
    NotPrefix(v, CONTENT_LENGTH, |w|);
    NotPrefix(v, PROXY_CONNECTION, 0);
    NotPrefix(v, TRANSFER_ENCODING, 0);
    NotPrefix(v, UPGRADE, 0);
  }

  lemma PrefixDown(w: string, c: char, name: string)
    ensures w + [c] <= name ==> w <= name
  {
  }

  lemma StaysUnknown(w: string, c: char)
    requires Unknown(w)
    ensures Unknown(w + [c])
  {
    PrefixDown(w, c, CONNECTION);
    PrefixDown(w, c, PROXY_CONNECTION);
    PrefixDown(w, c, CONTENT_LENGTH);
    PrefixDown(w, c, TRANSFER_ENCODING);
    PrefixDown(w, c, UPGRADE);
  }

  lemma MatchNameTells(name: string, index: nat, w: string, c: char, here: HeaderState, done: HeaderState)
    requires PartOf(w, name, index) && here != General && done != General && here != done
    ensures var hs := MatchName(name, index, c, here, done);
            && (hs == here ==> PartOf(w + [c], name, index + 1))
            && (hs == done ==> w + [c] == name)
            && (hs == General ==> !(w + [c] <= name))
            && (hs == here || hs == done || hs == General)
  {
    assert w == name[..index + 1];
    if c == name[index + 1] {
      assert w + [c] == name[..index + 2];
    } else {
      NotPrefix(w + [c], name, index + 1);
    }
  }

  /** The state of a matcher: its name, and the header state when the name is complete. */
  predicate IsMatcher(hs: HeaderState, name: string, done: HeaderState) {
    || (hs == MatchingConnection && name == CONNECTION && done == ConnectionName)
    || (hs == MatchingProxyConnection && name == PROXY_CONNECTION && done == ConnectionName)
    || (hs == MatchingContentLength && name == CONTENT_LENGTH && done == ContentLengthName)
    || (hs == MatchingTransferEncoding && name == TRANSFER_ENCODING && done == TransferEncodingName)
    || (hs == MatchingUpgrade && name == UPGRADE && done == UpgradeName)
  }

  lemma TellsMatching(hs: HeaderState, index: nat, w: string, c: char, name: string, done: HeaderState)
    requires Tells(hs, index, w) && IsMatcher(hs, name, done)
    ensures Tells(NameStep(hs, index, c), index + 1, w + [c])
  {
    hide Unknown, MatchName, PartOf;
    assert NameStep(hs, index, c) == MatchName(name, index, c, hs, done);
    MatchNameTells(name, index, w, c, hs, done);
    if NameStep(hs, index, c) == General {
      PartIsPrefix(w, name, index);
      LeavesName(w, c, name);
    }
  }

  lemma PartIsPrefix(w: string, name: string, index: nat)
    requires PartOf(w, name, index)
    ensures w <= name && |w| == index + 1
  {
  }

  /** Any character after a whole known name makes it unknown. */
  lemma TellsWhole(w: string, c: char, name: string)
    requires w == name
    requires name == CONNECTION || name == PROXY_CONNECTION || name == CONTENT_LENGTH || name == TRANSFER_ENCODING
             || name == UPGRADE
    ensures Unknown(w + [c])
  {
    NotPrefix(w + [c], name, |w|);
    LeavesName(w, c, name);
  }

  lemma TellsStep(hs: HeaderState, index: nat, w: string, c: char)
    requires Tells(hs, index, w)
    ensures Tells(NameStep(hs, index, c), if NameMatching(hs) then index + 1 else index, w + [c])
  {
    hide Unknown, PartOf;
    if hs == C || hs == CO || hs == CON {
      TellsCommon(hs, index, w, c);
    } else if hs == General {
      StaysUnknown(w, c);
    } else if NameMatching(hs) {
      TellsMatching(hs, index, w, c,
                    if hs == MatchingConnection then CONNECTION
                    else if hs == MatchingProxyConnection then PROXY_CONNECTION
                    else if hs == MatchingContentLength then CONTENT_LENGTH
                    else if hs == MatchingTransferEncoding then TRANSFER_ENCODING
                    else UPGRADE,
                    if hs == MatchingConnection || hs == MatchingProxyConnection then ConnectionName
                    else if hs == MatchingContentLength then ContentLengthName
                    else if hs == MatchingTransferEncoding then TransferEncodingName
                    else UpgradeName);
    } else {
      TellsWhole(w, c, w);
    }
  }

  lemma TellsCommon(hs: HeaderState, index: nat, w: string, c: char)
    requires Tells(hs, index, w) && (hs == C || hs == CO || hs == CON)
    ensures Tells(NameStep(hs, index, c), index + 1, w + [c])
  {
    hide Unknown;
    if NameStep(hs, index, c) == General {
      LeavesCommon(w, c);
    } else if hs == CON {
      assert w + [c] == if c == 'n' then CONNECTION[..4] else CONTENT_LENGTH[..4];
    }
  }

  /** The first character of a name. */
  lemma TellsFirst(c: char)
    ensures Tells(FirstNameState(c), 0, [c])
  {
    hide Unknown;
    if FirstNameState(c) == General {
      FirstUnknown(c);
    } else if c == 'p' {
      assert [c] == PROXY_CONNECTION[..1];
    } else if c == 't' {
      assert [c] == TRANSFER_ENCODING[..1];
    } else if c == 'u' {
      assert [c] == UPGRADE[..1];
    }
  }

  lemma FirstUnknown(c: char)
    requires c != 'c' && c != 'p' && c != 't' && c != 'u'
    ensures Unknown([c])
  {
    NotPrefix([c], CONNECTION, 0);
    NotPrefix([c], PROXY_CONNECTION, 0);
    NotPrefix([c], CONTENT_LENGTH, 0);
    NotPrefix([c], TRANSFER_ENCODING, 0);
    NotPrefix([c], UPGRADE, 0);
  }

  /** Reading a name of any length, the matchers always tell what has been read. */
  lemma {:induction false} MatchedTells(w: string)
    requires w != ""
    ensures Tells(Matched(w).0, Matched(w).1, w)
  {
    hide Unknown, NameStep, Tells;
    var n := |w| - 1;
    if n == 0 {
      TellsFirst(w[0]);
      assert w == [w[0]];
    } else {
      MatchedTells(w[..n]);
      TellsStep(Matched(w[..n]).0, Matched(w[..n]).1, w[..n], w[n]);
      assert w == w[..n] + [w[n]];
    }
  }

  /** The header states that activate a special treatment of the value. */
  lemma MatchedIsLookup(w: string)
    requires w != ""
    ensures Matched(w).0 == ConnectionName <==> w == CONNECTION || w == PROXY_CONNECTION
    ensures Matched(w).0 == ContentLengthName <==> w == CONTENT_LENGTH
    ensures Matched(w).0 == TransferEncodingName <==> w == TRANSFER_ENCODING
    ensures Matched(w).0 == UpgradeName <==> w == UPGRADE
  {
    hide Tells;
    MatchedTells(w);
    TellsWhichName(Matched(w).0, Matched(w).1, w);
  }

  lemma TellsWhichName(hs: HeaderState, index: nat, w: string)
    requires Tells(hs, index, w)
    ensures hs == ConnectionName <==> w == CONNECTION || w == PROXY_CONNECTION
    ensures hs == ContentLengthName <==> w == CONTENT_LENGTH
    ensures hs == TransferEncodingName <==> w == TRANSFER_ENCODING
    ensures hs == UpgradeName <==> w == UPGRADE
  {
    NamesDiffer();
    if w == CONNECTION || w == PROXY_CONNECTION {
      WhichName(hs, index, w);
    } else if w == CONTENT_LENGTH || w == TRANSFER_ENCODING || w == UPGRADE {
      WhichName(hs, index, w);
    }
  }

  lemma NamesDiffer()
    ensures CONNECTION[0] == 'c' && CONNECTION[3] == 'n' && PROXY_CONNECTION[0] == 'p' && CONTENT_LENGTH[0] == 'c'
    ensures CONTENT_LENGTH[3] == 't' && TRANSFER_ENCODING[0] == 't' && UPGRADE[0] == 'u'
    ensures |CONNECTION| == 10 && |PROXY_CONNECTION| == 16 && |CONTENT_LENGTH| == 14 && |TRANSFER_ENCODING| == 17
            && |UPGRADE| == 7
  {
  }

  /** A whole known name is told to be one. */
  lemma WhichName(hs: HeaderState, index: nat, w: string)
    requires Tells(hs, index, w)
    requires w == CONNECTION || w == PROXY_CONNECTION || w == CONTENT_LENGTH || w == TRANSFER_ENCODING || w == UPGRADE
    ensures hs == ConnectionName || hs == ContentLengthName || hs == TransferEncodingName || hs == UpgradeName
  {
    NamesDiffer();
    if hs == MatchingConnection {
      PartIsNoName(w, CONNECTION, index);
    } else if hs == MatchingProxyConnection {
      PartIsNoName(w, PROXY_CONNECTION, index);
    } else if hs == MatchingContentLength {
      PartIsNoName(w, CONTENT_LENGTH, index);
    } else if hs == MatchingTransferEncoding {
      PartIsNoName(w, TRANSFER_ENCODING, index);
    } else if hs == MatchingUpgrade {
      PartIsNoName(w, UPGRADE, index);
    }
  }

  lemma PartIsNoName(w: string, name: string, index: nat)
    requires PartOf(w, name, index)
             && (index >= 3 || name == PROXY_CONNECTION || name == TRANSFER_ENCODING || name == UPGRADE)
    requires name == CONNECTION || name == PROXY_CONNECTION || name == CONTENT_LENGTH || name == TRANSFER_ENCODING
             || name == UPGRADE
    ensures w != CONNECTION && w != PROXY_CONNECTION && w != CONTENT_LENGTH && w != TRANSFER_ENCODING && w != UPGRADE
  {
    NamesDiffer();
    assert w[0] == name[0] && (|w| > 3 ==> w[3] == name[3]);
  }

  /** The parser after a header name. */
  function AfterName(p: Parser, name: string): Parser
    requires name != ""
  {
    Parser(p.f.(state := HeaderField, headerState := Matched(Lowered(name)).0, index := Matched(Lowered(name)).1,
                nread := p.f.nread + |name|),
           Emit(p.trace, Data(Field, name)))
  }

  lemma StepOfName(cfg: Settings, p: Parser, ch: char)
    requires InName(p.f.state)
    ensures Step(cfg, p, ch) == StepHeaderName(p.f, ch)
  {
  }

  lemma {:induction false} NameReads(cfg: Settings, p: Parser, name: string)
    requires p.f.state == HeaderFieldStart && IsToken(name) && Room(cfg, p, |name|)
    ensures Reads(cfg, p, name, AfterName(p, name))
  {
    hide Step, Emit, Run, NameStep, FirstNameState;
    var n := |name| - 1;
    var ch := name[n];
    if n == 0 {
      ReadsNothing(cfg, p);
      StepOfName(cfg, Counted(p), ch);
      ReadsByte(cfg, p, "", p, ch);
      assert name == "" + [ch];
    } else {
      NameReads(cfg, p, name[..n]);
      var q := AfterName(p, name[..n]);
      StepOfName(cfg, Counted(q), ch);
      ReadsByte(cfg, p, name[..n], q, ch);
      assert name == name[..n] + [ch];
      EmitTwice(p.trace, Field, name[..n], [ch]);
    }
  }

  /** A header name of any length activates the treatment of a known header exactly if its
      lower-cased whole text is the name of that header. */
  lemma NameActivates(cfg: Settings, p: Parser, name: string, q: Parser)
    requires p.f.state == HeaderFieldStart && IsToken(name) && Room(cfg, p, |name| + 1)
    requires Run(cfg, p, name + ":") == Running(q)
    ensures q.f.state == HeaderValueDiscardWs
    ensures q.f.headerState == ConnectionName <==> Lowered(name) == CONNECTION || Lowered(name) == PROXY_CONNECTION
    ensures q.f.headerState == ContentLengthName <==> Lowered(name) == CONTENT_LENGTH
    ensures q.f.headerState == TransferEncodingName <==> Lowered(name) == TRANSFER_ENCODING
    ensures q.f.headerState == UpgradeName <==> Lowered(name) == UPGRADE
  {
    hide Run, Step;
    NameColonReads(cfg, p, name);
    MatchedIsLookup(Lowered(name));
  }

  function AfterColon(p: Parser, name: string): Parser
    requires name != ""
  {
    var q := AfterName(p, name);
    q.(f := q.f.(state := HeaderValueDiscardWs, nread := q.f.nread + 1))
  }

  /** A header name and its colon are always read. */
  lemma NameColonReads(cfg: Settings, p: Parser, name: string)
    requires p.f.state == HeaderFieldStart && IsToken(name) && Room(cfg, p, |name| + 1)
    ensures Reads(cfg, p, name + ":", AfterColon(p, name))
  {
    hide Run, Step, NameStep, Matched, Emit;
    NameReads(cfg, p, name);
    var q := AfterName(p, name);
    StepOfName(cfg, Counted(q), ':');
    ReadsByte(cfg, p, name, q, ':');
  }

  // ---------------------------------------------------------------- method tokens

  /** The method assumed after one more character; None if the character is refused. */
  function NextMethod(m: Method, index: nat, ch: char): Option<Method> {
    if index < |MethodString(m)| && ch == MethodString(m)[index] then Some(m)
    else if 'A' <= ch <= 'Z' || ch == '-' then OtherMethod(m, index, ch)
    else None
  }

  /** The method assumed after the characters `w`. */
  function MethodWalk(w: string): Option<Method>
    requires w != ""
  {
    var n := |w| - 1;
    if n == 0 then FirstMethod(w[0])
    else match MethodWalk(w[..n])
      case None => None
      case Some(m) => NextMethod(m, n, w[n])
  }

  /** The characters read so far are those of the method assumed. */
  lemma {:induction false} WalkSound(w: string)
    requires w != "" && MethodWalk(w).Some?
    ensures w <= MethodString(MethodWalk(w).value)
  {
    hide OtherMethod, MethodString, FirstMethod, Parent, Depth;
    var n := |w| - 1;
    if n == 0 {
      FirstMethodPrefix(w[0]);
    } else {
      WalkSound(w[..n]);
      var m := MethodWalk(w[..n]).value;
      if !(n < |MethodString(m)| && w[n] == MethodString(m)[n]) {
        OtherIsChild(m, n, w[n]);
        ParentFacts(MethodWalk(w).value);
        var other := MethodString(MethodWalk(w).value);
        assert w == w[..n] + [w[n]] && other[..n] + [other[n]] == other[..n + 1];
      }
    }
  }

  lemma FirstMethodPrefix(ch: char)
    requires FirstMethod(ch).Some?
    ensures [ch] <= MethodString(FirstMethod(ch).value)
  {
  }

  /** The method from which a method is reached, and at which character. */
  function Parent(m: Method): Option<(Method, nat)> {
    match m
    case Put => Some((Post, 1)) case Patch => Some((Post, 1)) case Propfind => Some((Post, 1))
    case Purge => Some((Put, 2)) case Checkout => Some((Connect, 1)) case Copy => Some((Connect, 2))
    case Move => Some((Mkcol, 1)) case Merge => Some((Mkcol, 1)) case Msearch => Some((Mkcol, 1))
    case Mkactivity => Some((Mkcol, 2)) case Mkcalendar => Some((Mkcol, 3))
    case Search => Some((Subscribe, 1)) case Source => Some((Subscribe, 1)) case Rebind => Some((Report, 2))
    case Proppatch => Some((Propfind, 4)) case Link => Some((Lock, 1))
    case Unsubscribe => Some((Unlock, 2)) case Unbind => Some((Unlock, 2)) case Unlink => Some((Unlock, 3))
    case Delete => None case Get => None case Head => None case Post => None case Connect => None
    case Options => None case Trace => None case Lock => None case Mkcol => None case Unlock => None
    case Bind => None case Acl => None case Report => None case Notify => None case Subscribe => None
  }

  function Depth(m: Method): nat {
    if m == Purge || m == Proppatch then 2 else if Parent(m).Some? then 1 else 0
  }

  lemma ParentFacts(m: Method)
    requires Parent(m).Some?
    ensures var (q, at) := Parent(m).value;
            && Depth(q) < Depth(m) && 0 < at < |MethodString(m)| && at < |MethodString(q)|
            && MethodString(m)[..at] == MethodString(q)[..at] && MethodString(m)[at] != MethodString(q)[at]
            && ('A' <= MethodString(m)[at] <= 'Z' || MethodString(m)[at] == '-')
            && OtherMethod(q, at, MethodString(m)[at]) == Some(m)
            && (Parent(q).Some? ==> Parent(q).value.1 < at)
  {
    ParentStrings(m);
    ParentDepth(m);
    ParentLeads(m);
    hide MethodString, OtherMethod, Parent, Depth;
  }

  lemma ParentStrings(m: Method)
    requires Parent(m).Some?
    ensures var (q, at) := Parent(m).value;
            && 0 < at < |MethodString(m)| && at < |MethodString(q)|
            && MethodString(m)[..at] == MethodString(q)[..at] && MethodString(m)[at] != MethodString(q)[at]
            && ('A' <= MethodString(m)[at] <= 'Z' || MethodString(m)[at] == '-')
  {
  }

  lemma ParentDepth(m: Method)
    requires Parent(m).Some?
    ensures var (q, at) := Parent(m).value;
            Depth(q) < Depth(m) && (Parent(q).Some? ==> Parent(q).value.1 < at)
  {
  }

  lemma ParentLeads(m: Method)
    requires Parent(m).Some? && Parent(m).value.1 < |MethodString(m)|
    ensures var (q, at) := Parent(m).value;
            OtherMethod(q, at, MethodString(m)[at]) == Some(m)
  {
  }

  lemma OtherIsChild(m: Method, index: nat, ch: char)
    requires OtherMethod(m, index, ch).Some?
    ensures var other := OtherMethod(m, index, ch).value;
            Parent(other) == Some((m, index)) && |MethodString(other)| > index && MethodString(other)[index] == ch
  {
    OtherHasParent(m, index, ch);
    OtherHasChar(m, index, ch);
    hide MethodString, OtherMethod, Parent;
  }

  lemma OtherHasParent(m: Method, index: nat, ch: char)
    requires OtherMethod(m, index, ch).Some?
    ensures Parent(OtherMethod(m, index, ch).value) == Some((m, index))
  {
    hide MethodString;
  }

  lemma OtherHasChar(m: Method, index: nat, ch: char)
    requires OtherMethod(m, index, ch).Some?
    ensures var other := OtherMethod(m, index, ch).value;
            |MethodString(other)| > index && MethodString(other)[index] == ch
  {
    hide Parent;
  }

  /** The method assumed after `k` characters of the method string of `m`. */
  function Track(m: Method, k: nat): Method
    decreases Depth(m)
  {
    if Parent(m).Some? && k <= Parent(m).value.1 then
      ParentFacts(m);
      Track(Parent(m).value.0, k)
    else m
  }

  lemma {:induction false} TrackStep(m: Method, k: nat)
    requires 0 < k < |MethodString(m)|
    ensures NextMethod(Track(m, k), k, MethodString(m)[k]) == Some(Track(m, k + 1))
    decreases Depth(m)
  {
    hide MethodString, OtherMethod, Depth, Parent;
    if Parent(m).Some? && k <= Parent(m).value.1 {
      ParentFacts(m);
      var (q, at) := Parent(m).value;
      if k < at {
        assert MethodString(m)[..at][k] == MethodString(q)[..at][k];
        TrackStep(q, k);
      } else {
        assert Track(q, at) == q;
      }
    }
  }

  lemma {:induction false} TrackFirst(m: Method)
    ensures FirstMethod(MethodString(m)[0]) == Some(Track(m, 1))
    decreases Depth(m)
  {
    if Parent(m).Some? {
      hide MethodString, FirstMethod, Depth, Parent;
      ParentFacts(m);
      var (q, at) := Parent(m).value;
      assert MethodString(m)[..at][0] == MethodString(q)[..at][0];
      TrackFirst(q);
    }
  }

  /** Every method string is accepted, each character in turn. */
  lemma {:induction false} WalkComplete(m: Method, k: nat)
    requires 0 < k <= |MethodString(m)|
    ensures MethodWalk(MethodString(m)[..k]) == Some(Track(m, k))
  {
    hide MethodString, NextMethod, Track, FirstMethod;
    var w := MethodString(m)[..k];
    if k == 1 {
      TrackFirst(m);
    } else {
      assert w[..k - 1] == MethodString(m)[..k - 1];
      WalkComplete(m, k - 1);
      TrackStep(m, k - 1);
    }
  }

  lemma TrackWhole(m: Method)
    ensures Track(m, |MethodString(m)|) == m && |MethodString(m)| > 0
  {
    if Parent(m).Some? {
      ParentFacts(m);
    }
  }

  lemma MethodChars(m: Method, k: nat)
    requires k < |MethodString(m)|
    ensures 'A' <= MethodString(m)[k] <= 'Z' || MethodString(m)[k] == '-'
  {
  }

  /** The parser after the characters `w` of a method token. */
  function AfterMethod(p: Parser, w: string): Parser
    requires w != "" && MethodWalk(w).Some?
  {
    Parser(p.f.(flags := {}, contentLength := NO_LENGTH, meth := MethodWalk(w).value, index := |w|, state := ReqMethod,
                nread := p.f.nread + |w|),
           Emit(p.trace, MessageBegin))
  }

  lemma StepOfMethod(cfg: Settings, p: Parser, ch: char)
    requires p.f.state == ReqMethod
    ensures Step(cfg, p, ch) == StepMethod(p.f, ch)
  {
  }

  lemma StepOfStart(cfg: Settings, p: Parser, ch: char)
    requires p.f.state == StartReq && ch != CR && ch != LF
    ensures Step(cfg, p, ch) ==
            if FirstMethod(ch).Some? then
              Break(p.f.(flags := {}, contentLength := NO_LENGTH, meth := FirstMethod(ch).value, index := 1,
                         state := ReqMethod),
                    Some(MessageBegin))
            else Error(InvalidMethod)
  {
  }

  /** One more character of a method token. */
  lemma StepMethodIs(f: Fields, ch: char)
    requires ch != ' '
    ensures StepMethod(f, ch) ==
            match NextMethod(f.meth, f.index, ch)
            case Some(m) => Break(f.(meth := m, index := f.index + 1), None)
            case None => Error(InvalidMethod)
  {
    if f.index < |MethodString(f.meth)| {
      MethodChars(f.meth, f.index);
    }
    hide MethodString, OtherMethod;
  }

  lemma {:induction false} MethodReads(cfg: Settings, p: Parser, w: string)
    requires p.f.state == StartReq && Room(cfg, p, |w|)
    requires w != "" && w[0] != CR && w[0] != LF && ' ' !in w
    ensures if MethodWalk(w).Some? then Reads(cfg, p, w, AfterMethod(p, w)) else Run(cfg, p, w).Failed?
  {
    hide Run, Step, Emit, MethodString, FirstMethod, NextMethod, StepMethod;
    var n := |w| - 1;
    if n == 0 {
      ReadsNothing(cfg, p);
      StepOfStart(cfg, Counted(p), w[0]);
      assert w == "" + [w[0]];
      if MethodWalk(w).Some? {
        ReadsByte(cfg, p, "", p, w[0]);
      } else {
        FailsByte(cfg, p, "", p, w[0]);
      }
    } else {
      var v := w[..n];
      assert w == v + [w[n]];
      MethodReads(cfg, p, v);
      if MethodWalk(v).Some? {
        var q := AfterMethod(p, v);
        StepOfMethod(cfg, Counted(q), w[n]);
        StepMethodIs(Counted(q).f, w[n]);
        if MethodWalk(w).Some? {
          ReadsByte(cfg, p, v, q, w[n]);
        } else {
          FailsByte(cfg, p, v, q, w[n]);
        }
      } else {
        RunStays(cfg, p, w, n);
      }
    }
  }

  /** A method token is accepted exactly if it is one of the method strings, and then the
      method is the one with that string. */
  lemma MethodIsLookup(cfg: Settings, p: Parser, w: string)
    requires p.f.state == StartReq && Room(cfg, p, |w| + 1)
    requires w != "" && w[0] != CR && w[0] != LF && ' ' !in w
    ensures Run(cfg, p, w + " ").Running? <==> exists m :: MethodString(m) == w
    ensures Run(cfg, p, w + " ").Running? ==>
              Run(cfg, p, w + " ").p.f.state == ReqSpacesBeforeUrl && MethodString(Run(cfg, p, w + " ").p.f.meth) == w
  {
    hide Run, Step, Emit, MethodString, NextMethod, MethodWalk, Track;
    MethodReads(cfg, p, w);
    if MethodWalk(w).Some? {
      var m := MethodWalk(w).value;
      WalkSound(w);
      var q := AfterMethod(p, w);
      StepOfMethod(cfg, Counted(q), ' ');
      if |w| == |MethodString(m)| {
        assert w == MethodString(m);
        ReadsByte(cfg, p, w, q, ' ');
      } else {
        MethodChars(m, |w|);
        FailsByte(cfg, p, w, q, ' ');
        forall other | MethodString(other) == w ensures false {
          WalkIsWhole(other, w);
        }
      }
    } else {
      assert (w + " ")[..|w|] == w;
      RunStays(cfg, p, w + " ", |w|);
      forall other | MethodString(other) == w ensures false {
        WalkIsWhole(other, w);
      }
    }
  }

  /** The walk over a whole method string ends in that method. */
  lemma WalkIsWhole(m: Method, w: string)
    requires MethodString(m) == w
    ensures w != "" && MethodWalk(w) == Some(m)
  {
    hide MethodString, MethodWalk, Track;
    TrackWhole(m);
    WalkComplete(m, |w|);
    assert w[..|w|] == w;
  }
}
