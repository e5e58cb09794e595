/** The URLs that the automaton of request lines takes: it is given by its states, but its language
    is that of a short grammar over the text.
 */
module HttpTargets {
  import opened HttpTypes
  import opened HttpStep
  import opened HttpUrl
  import opened HttpUrlPrint
  import opened HttpUrlAccept
  import opened HttpMessages

  // ---------------------------------------------------------------- the grammar

  ghost predicate Visible(url: string, i: int, j: int) {
    Within(url, i, j) && forall n :: i <= n < j ==> 0x21 <= url[n] as int <= 0x7E
  }

  /** The bytes of a host part with its user information. */
  ghost predicate ServerBytes(url: string, i: int, j: int) {
    && Within(url, i, j)
    && forall n :: i <= n < j ==> IsUserinfoChar(url[n]) || url[n] == '[' || url[n] == ']' || url[n] == '@'
  }

  /** No "@" follows another one. */
  ghost predicate NoTwoAts(url: string, i: int, j: int) {
    Within(url, i, j) && forall n :: i < n < j ==> url[n] != '@' || url[n - 1] != '@'
  }

  /** From a on, a host part, and behind it what begins with a path or a query. */
  ghost predicate IsServerPart(url: string, a: int) {
    exists b :: a <= b && HostPartEnds(url, a, b)
  }

  ghost predicate HostPartEnds(url: string, a: int, b: int) {
    && 0 <= a < |url| && ServerBytes(url, a, b) && NoTwoAts(url, a, b)
    && (b < |url| ==> (url[b] == '/' || url[b] == '?') && Visible(url, b, |url|))
  }

  /** CONNECT wants a host part. Any other method wants a path, of which nothing is asked but that it
      is visible, or a schema and a host part. */
  ghost predicate IsTarget(m: Method, url: string) {
    if m == Connect then IsServerPart(url, 0)
    else
      || (url != "" && (url[0] == '/' || url[0] == '*') && Visible(url, 0, |url|))
      || (exists a :: 0 < a && SchemaEnds(url, a) && IsServerPart(url, a))
  }

  // ---------------------------------------------------------------- the automaton takes what the grammar allows

  predicate InServer(s: State) { ReqServerStart <= s <= ReqServerWithAt }

  predicate InTail(s: State) { ReqPath <= s <= ReqFragment }

  /** Behind a host part, any visible character is taken and no other. */
  lemma TailStep(s: State, ch: char)
    requires InTail(s)
    ensures if 0x21 <= ch as int <= 0x7E then InTail(UrlChar(s, ch)) else UrlChar(s, ch) == Dead
  {
  }

  lemma {:induction false} TailGoes(isConnect: bool, url: string, b: nat, n: nat)
    requires b <= n <= |url| && InTail(At(isConnect, url, b).s) && Visible(url, b, n)
    ensures InTail(At(isConnect, url, n).s)
  {
    hide WalkOver, UrlChar;
    if b < n {
      TailGoes(isConnect, url, b, n - 1);
      WalkOverNext(isConnect, url, n - 1);
      TailStep(At(isConnect, url, n - 1).s, url[n - 1]);
    }
  }

  lemma {:induction false} ServerGoes(isConnect: bool, url: string, a: nat, n: nat)
    requires a <= n <= |url| && At(isConnect, url, a).s == ReqServerStart
    requires ServerBytes(url, a, n) && NoTwoAts(url, a, n)
    ensures var s := At(isConnect, url, n).s;
            if n == a then s == ReqServerStart
            else if url[n - 1] == '@' then s == ReqServerWithAt else s == ReqServer
  {
    hide WalkOver;
    if a < n {
      ServerGoes(isConnect, url, a, n - 1);
      WalkOverNext(isConnect, url, n - 1);
    }
  }

  lemma ServerPartGoes(isConnect: bool, url: string, a: nat, b: nat)
    requires a <= |url| && At(isConnect, url, a).s == ReqServerStart && a <= b && HostPartEnds(url, a, b)
    ensures UrlEndableState(At(isConnect, url, |url|).s)
  {
    hide WalkOver;
    ServerGoes(isConnect, url, a, b);
    if b < |url| {
      WalkOverNext(isConnect, url, b);
      TailGoes(isConnect, url, b + 1, |url|);
    }
  }

  lemma SchemaGoes(url: string, a: nat)
    requires 0 < a && SchemaEnds(url, a)
    ensures a <= |url| && At(false, url, a).s == ReqServerStart
  {
    hide WalkOver, IsAlpha;
    assert forall i :: 0 <= i < a - 3 ==> IsAlpha(url[i]);
    WalkSchema(url, a - 3);
  }

  lemma PathGoes(url: string)
    requires url != "" && (url[0] == '/' || url[0] == '*') && Visible(url, 0, |url|)
    ensures UrlEndableState(At(false, url, |url|).s)
  {
    WalkStarts(url, seq(7, _ => Span(0, 0)), false);
    WalkOverNext(false, url, 0);
    hide WalkOver;
    TailGoes(false, url, 1, |url|);
  }

  // ---------------------------------------------------------------- and nothing else

  /** What the automaton has read of the host part and behind it. */
  ghost predicate ServerRead(url: string, k: nat, w: Walk, isConnect: bool)
    requires k <= |url|
  {
    && (InServer(w.s) ==>
          && w.a <= k && ServerBytes(url, w.a, k) && NoTwoAts(url, w.a, k)
          && (w.s != ReqServerStart ==> w.a < k)
          && (w.s == ReqServerWithAt <==> w.a < k && url[k - 1] == '@'))
    && (InTail(w.s) ==>
          if isConnect || w.a > 0 then
            && w.a <= w.b < k && ServerBytes(url, w.a, w.b) && NoTwoAts(url, w.a, w.b)
            && (url[w.b] == '/' || url[w.b] == '?') && Visible(url, w.b, k)
          else 0 < k && (url[0] == '/' || url[0] == '*') && Visible(url, 0, k))
  }

  lemma ServerNext(url: string, k: nat, w: Walk, isConnect: bool)
    requires k < |url| && UrlRead(url, k, w, isConnect) && ServerRead(url, k, w, isConnect)
    requires UrlChar(w.s, url[k]) != Dead
    ensures ServerRead(url, k + 1, NextWalk(w, url[k], k), isConnect)
  {
    hide QueryRead, FragmentRead, IsUserinfoChar, IsAlpha, SchemaEnds, Alphas, PathBetween;
  }

  lemma {:induction false} ServerReads(isConnect: bool, url: string, k: nat)
    requires k <= |url| && At(isConnect, url, k).s != Dead
    ensures ServerRead(url, k, At(isConnect, url, k), isConnect)
  {
    hide WalkOver, UrlRead, UrlChar, ServerRead;
    if k == 0 {
      ServerReadsStart(isConnect, url);
    } else {
      WalkOverNext(isConnect, url, k - 1);
      DeadStaysDead(url[k - 1]);
      WalkReads(isConnect, url, k - 1);
      ServerReads(isConnect, url, k - 1);
      ServerNext(url, k - 1, At(isConnect, url, k - 1), isConnect);
    }
  }

  lemma ServerReadsStart(isConnect: bool, url: string)
    ensures ServerRead(url, 0, At(isConnect, url, 0), isConnect)
  {
  }

  lemma EndIsTarget(m: Method, url: string, w: Walk)
    requires UrlRead(url, |url|, w, m == Connect) && ServerRead(url, |url|, w, m == Connect) && UrlEndableState(w.s)
    ensures IsTarget(m, url)
  {
    hide QueryRead, FragmentRead, IsUserinfoChar, PathBetween, SchemaEnds;
    var a := w.a;
    if InServer(w.s) {
      assert HostPartEnds(url, a, |url|);
      assert IsServerPart(url, a);
    } else if m == Connect || a > 0 {
      assert HostPartEnds(url, a, w.b);
      assert IsServerPart(url, a);
    }
  }

  // ---------------------------------------------------------------- both

  lemma {:induction false} WalksAlike(m: Method, url: string)
    ensures UrlWalk(m, url) == WalkOver(m == Connect, url).s
  {
    if url != "" {
      WalksAlike(m, url[..|url| - 1]);
    }
  }

  /** The automaton takes exactly the URLs of the grammar. */
  lemma UrlIsTarget(m: Method, url: string)
    ensures IsUrl(m, url) <==> IsTarget(m, url)
  {
    hide WalkOver, UrlWalk, UrlRead, ServerRead, SchemaEnds, HostPartEnds;
    WalksAlike(m, url);
    assert url[..|url|] == url;
    if IsUrl(m, url) {
      WalkReads(m == Connect, url, |url|);
      ServerReads(m == Connect, url, |url|);
      EndIsTarget(m, url, At(m == Connect, url, |url|));
    } else if IsTarget(m, url) {
      TargetGoes(m, url);
    }
  }

  lemma TargetGoes(m: Method, url: string)
    requires IsTarget(m, url)
    ensures url != "" && UrlEndableState(At(m == Connect, url, |url|).s)
  {
    hide WalkOver, SchemaEnds;
    if m == Connect {
      var b :| 0 <= b && HostPartEnds(url, 0, b);
      ConnectStarts(url);
      ServerPartGoes(true, url, 0, b);
    } else if url != "" && (url[0] == '/' || url[0] == '*') && Visible(url, 0, |url|) {
      PathGoes(url);
    } else {
      var a :| 0 < a && SchemaEnds(url, a) && IsServerPart(url, a);
      var b :| a <= b && HostPartEnds(url, a, b);
      SchemaGoes(url, a);
      ServerPartGoes(false, url, a, b);
    }
  }

  lemma ConnectStarts(url: string)
    ensures At(true, url, 0).s == ReqServerStart
  {
  }
}
