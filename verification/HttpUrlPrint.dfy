/** Every URL written from legal parts is taken by the splitter and cut into just those parts;
    HttpUrlAccept says that it takes no others.
 */
module HttpUrlPrint {
  import opened Options
  import opened HttpTypes
  import opened HttpStep
  import opened HttpBodies
  import opened HttpUrl

  // ---------------------------------------------------------------- writing a URL

  /** A host name, or an IPv6 address with an optional zone (RFC 6874). */
  datatype HostText = Name(name: string) | Literal(address: string, zone: Option<string>)

  datatype Authority = Authority(userinfo: Option<string>, host: HostText, port: Option<string>)

  /** `schema` and `fragment` are empty where there is none; `marks` is the number of "#"s. */
  datatype UrlParts = UrlParts(
    schema: string, authority: Option<Authority>, path: string, query: Option<string>, marks: nat, fragment: string)

  predicate LegalHost(h: HostText) {
    match h
    case Name(n) => n != "" && forall i :: 0 <= i < |n| ==> IsHostChar(n[i])
    case Literal(v, z) =>
      && v != "" && (forall i :: 0 <= i < |v| ==> IsHex(v[i]) || v[i] == ':' || v[i] == '.')
      && (z.Some? ==> z.value != "" && forall i :: 0 <= i < |z.value| ==> IsZoneChar(z.value[i]))
  }

  predicate LegalAuthority(t: Authority) {
    && (t.userinfo.Some? ==> forall i :: 0 <= i < |t.userinfo.value| ==> IsUserinfoChar(t.userinfo.value[i]))
    && LegalHost(t.host)
    && (t.port.Some? ==> IsDecimal(t.port.value) && Decimal(t.port.value) <= 65535)
  }

  predicate LegalUrl(u: UrlParts, isConnect: bool) {
    && (forall i :: 0 <= i < |u.schema| ==> IsAlpha(u.schema[i]))
    && (u.authority.Some? ==> LegalAuthority(u.authority.value))
    && (forall i :: 0 <= i < |u.path| ==> IsUrlChar(u.path[i]))
    && (u.query.Some? ==> forall i :: 0 <= i < |u.query.value| ==>
          IsUrlChar(u.query.value[i]) || u.query.value[i] == '?')
    && (u.fragment != "" ==> u.marks > 0 && u.fragment[0] != '#')
    && (forall i :: 0 <= i < |u.fragment| ==>
          IsUrlChar(u.fragment[i]) || u.fragment[i] == '?' || u.fragment[i] == '#')
    && (u.marks > 0 ==> u.path != "" || u.query.Some?)
    && if isConnect then
         && u.schema == "" && u.authority.Some? && u.authority.value.port.Some?
         && (u.authority.value.userinfo.Some? ==> u.authority.value.userinfo.value == "")
         && u.path == "" && (u.query.Some? ==> u.query.value == "") && u.fragment == ""
       else
         && (u.schema != "" <==> u.authority.Some?)
         && (u.path != "" ==> u.path[0] == '/' || (u.path[0] == '*' && u.schema == ""))
         && (u.schema == "" ==> u.path != "")
  }

  lemma PortIs(digits: string)
    ensures IsPort(digits) <==> IsDecimal(digits) && Decimal(digits) <= 65535
  {
  }

  function Before(s: Option<string>, mark: string): string {
    if s.Some? then s.value + mark else ""
  }

  function Behind(mark: string, s: Option<string>): string {
    if s.Some? then mark + s.value else ""
  }

  function Hashes(n: nat): (s: string)
    ensures |s| == n
  {
    seq(n, _ => '#')
  }

  function PrintHost(h: HostText): string {
    match h
    case Name(n) => n
    case Literal(v, z) => "[" + v + Behind("%", z) + "]"
  }

  function PrintAuthority(t: Authority): string {
    Before(t.userinfo, "@") + PrintHost(t.host) + Behind(":", t.port)
  }

  function PrintSchema(schema: string): string { if schema == "" then "" else schema + "://" }

  function PrintUrl(u: UrlParts): string {
    PrintSchema(u.schema)
    + (if u.authority.Some? then PrintAuthority(u.authority.value) else "")
    + u.path + Behind("?", u.query) + (Hashes(u.marks) + u.fragment)
  }

  /** Where the parts end. */
  function Cuts(u: UrlParts): Layout {
    var a := |PrintSchema(u.schema)|;
    var (v, h, b) :=
      if u.authority.Some? then
        var t := u.authority.value;
        var v := a + |Before(t.userinfo, "@")|;
        (v, v + |PrintHost(t.host)|, a + |PrintAuthority(t)|)
      else (a, a, a);
    var q := b + |u.path|;
    var f := q + |Behind("?", u.query)|;
    Layout(a, v, h, b, q, f, f + u.marks)
  }

  // ---------------------------------------------------------------- the first pass

  function At(isConnect: bool, buf: string, k: nat): Walk
    requires k <= |buf|
  {
    WalkOver(isConnect, buf[..k])
  }

  /** Bytes that keep the state change nothing. */
  lemma {:induction false} WalkAlong(isConnect: bool, buf: string, k: nat, n: nat)
    requires k <= n <= |buf|
    requires var s := At(isConnect, buf, k).s;
             && (s == ReqSchema || s == ReqPath || s == ReqQueryString || s == ReqFragment)
             && forall i :: k <= i < n ==> UrlChar(s, buf[i]) == s
    ensures At(isConnect, buf, n) == At(isConnect, buf, k)
  {
    hide UrlChar, WalkOver;
    if k < n {
      WalkAlong(isConnect, buf, k, n - 1);
      WalkOverNext(isConnect, buf, n - 1);
    }
  }

  predicate ServerByte(c: char) { IsUserinfoChar(c) || c == '[' || c == ']' || c == '@' }

  predicate AtAmong(buf: string, k: nat, n: nat)
    requires k <= n <= |buf|
  {
    exists i :: k <= i < n && buf[i] == '@'
  }

  /** The host part, in which an '@' stands at most once. */
  lemma {:induction false} WalkServer(isConnect: bool, buf: string, a: nat, n: nat)
    requires a < n <= |buf| && At(isConnect, buf, a).s == ReqServerStart && !At(isConnect, buf, a).at
    requires forall i :: a <= i < n ==> ServerByte(buf[i])
    requires forall i, j :: a <= i < j < n ==> buf[i] != '@' || buf[j] != '@'
    ensures var w := At(isConnect, buf, n);
            && w.s == (if buf[n - 1] == '@' then ReqServerWithAt else ReqServer)
            && w == At(isConnect, buf, a).(s := w.s, at := AtAmong(buf, a, n))
  {
    hide WalkOver;
    WalkOverNext(isConnect, buf, n - 1);
    if a < n - 1 {
      WalkServer(isConnect, buf, a, n - 1);
    }
  }

  lemma WalkSchema(buf: string, n: nat)
    requires 0 < n && n + 3 <= |buf|
    requires forall i :: 0 <= i < n ==> IsAlpha(buf[i])
    requires buf[n] == ':' && buf[n + 1] == '/' && buf[n + 2] == '/'
    ensures At(false, buf, n + 3) == WalkStart(false).(s := ReqServerStart, a := n + 3)
  {
    hide WalkOver;
    WalkStarts(buf, seq(7, _ => Span(0, 0)), false);
    WalkOverNext(false, buf, 0);
    WalkAlong(false, buf, 1, n);
    WalkOverNext(false, buf, n);
    WalkOverNext(false, buf, n + 1);
    WalkOverNext(false, buf, n + 2);
  }

  /** The path, from the host part or from the start. */
  lemma WalkPath(isConnect: bool, buf: string, b: nat, q: nat)
    requires b < q <= |buf|
    requires var s := At(isConnect, buf, b).s;
             && (s == ReqSpacesBeforeUrl || s == ReqServer || s == ReqServerWithAt)
             && (buf[b] == '/' || (buf[b] == '*' && s == ReqSpacesBeforeUrl))
    requires forall i :: b <= i < q ==> IsUrlChar(buf[i])
    ensures At(isConnect, buf, q) == At(isConnect, buf, b).(s := ReqPath, b := b)
  {
    hide WalkOver;
    WalkOverNext(isConnect, buf, b);
    WalkAlong(isConnect, buf, b + 1, q);
  }

  /** The query, behind a path or right behind the host part. */
  lemma WalkQuery(isConnect: bool, buf: string, q: nat, f: nat)
    requires q < f <= |buf| && buf[q] == '?'
    requires var s := At(isConnect, buf, q).s; s == ReqServer || s == ReqServerWithAt || s == ReqPath
    requires forall i :: q < i < f ==> IsUrlChar(buf[i]) || buf[i] == '?'
    ensures var w := At(isConnect, buf, q);
            At(isConnect, buf, f) ==
              w.(s := if f == q + 1 then ReqQueryStringStart else ReqQueryString,
                 b := if w.s == ReqPath then w.b else q, q := q)
  {
    hide WalkOver;
    WalkOverNext(isConnect, buf, q);
    if q + 1 < f {
      WalkOverNext(isConnect, buf, q + 1);
      WalkAlong(isConnect, buf, q + 2, f);
    }
  }

  lemma {:induction false} WalkHashes(isConnect: bool, buf: string, f: nat, g: nat)
    requires f < g <= |buf| && AllHashes(buf, f, g)
    requires var s := At(isConnect, buf, f).s; s == ReqPath || s == ReqQueryStringStart || s == ReqQueryString
    ensures var w := At(isConnect, buf, f);
            At(isConnect, buf, g) == w.(s := ReqFragmentStart, q := if w.s == ReqPath then f else w.q, f := f, g := g)
  {
    hide WalkOver;
    if f + 1 < g {
      WalkHashes(isConnect, buf, f, g - 1);
    }
    WalkOverNext(isConnect, buf, g - 1);
  }

  lemma WalkFragment(isConnect: bool, buf: string, g: nat, n: nat)
    requires g < n <= |buf| && buf[g] != '#' && At(isConnect, buf, g).s == ReqFragmentStart
    requires forall i :: g <= i < n ==> IsUrlChar(buf[i]) || buf[i] == '?' || buf[i] == '#'
    ensures At(isConnect, buf, n) == At(isConnect, buf, g).(s := ReqFragment)
  {
    hide WalkOver;
    WalkOverNext(isConnect, buf, g);
    WalkAlong(isConnect, buf, g + 1, n);
  }

  // ---------------------------------------------------------------- the second pass

  lemma {:induction false} HostAlong(at: bool, buf: string, a: nat, k: nat, n: nat)
    requires a <= k < n <= |buf|
    requires forall i :: k <= i < n ==> HostChar(HostOver(at, buf, a, k).s, buf[i]) == HostOver(at, buf, a, k).s
    requires HostOver(at, buf, a, k).s != HostStart && HostOver(at, buf, a, k).s != V6End
    ensures var v := HostOver(at, buf, a, k);
            HostOver(at, buf, a, n) == if v.s == Host then v.(h := n) else v
  {
    hide HostChar, HostOver;
    if k + 1 < n {
      HostAlong(at, buf, a, k, n - 1);
    }
    HostOverNext(at, buf, a, n - 1);
  }

  lemma HostUserinfo(buf: string, a: nat, u: nat)
    requires a < u <= |buf| && buf[u - 1] == '@'
    requires forall i :: a <= i < u - 1 ==> IsUserinfoChar(buf[i])
    ensures HostOver(true, buf, a, u) == HostWalk(HostStart, u, a)
  {
    hide IsUserinfoChar;
    AtIsNoUserinfo();
    HostOverNext(true, buf, a, u - 1);
    if a < u - 1 {
      HostOverNext(true, buf, a, a);
      if a + 1 < u - 1 {
        HostAlong(true, buf, a, a + 1, u - 1);
      }
    }
  }

  lemma AtIsNoUserinfo()
    ensures !IsUserinfoChar('@')
  {
  }

  lemma HostName(at: bool, buf: string, a: nat, u: nat, h: nat)
    requires a <= u < h <= |buf| && HostOver(at, buf, a, u) == HostWalk(HostStart, u, a)
    requires forall i :: u <= i < h ==> IsHostChar(buf[i])
    ensures HostOver(at, buf, a, h) == HostWalk(Host, u, h)
  {
    hide HostOver;
    HostOverNext(at, buf, a, u);
    if u + 1 < h {
      HostAlong(at, buf, a, u + 1, h);
    }
  }

  /** An IPv6 address behind its opening bracket. */
  lemma HostAddress(at: bool, buf: string, a: nat, u: nat, z: nat)
    requires a <= u && u + 1 < z <= |buf| && HostOver(at, buf, a, u) == HostWalk(HostStart, u, a)
    requires buf[u] == '[' && forall i :: u < i < z ==> IsHex(buf[i]) || buf[i] == ':' || buf[i] == '.'
    ensures HostOver(at, buf, a, z) == HostWalk(V6, u, a)
  {
    hide HostOver;
    HostOverNext(at, buf, a, u);
    HostOverNext(at, buf, a, u + 1);
    if u + 2 < z {
      HostAlong(at, buf, a, u + 2, z);
    }
  }

  /** An IPv6 address between brackets; z is where its zone, if any, begins. */
  lemma HostLiteral(at: bool, buf: string, a: nat, u: nat, z: nat, h: nat)
    requires a <= u && u + 1 < z < h <= |buf| && HostOver(at, buf, a, u) == HostWalk(HostStart, u, a)
    requires buf[u] == '[' && buf[h - 1] == ']'
    requires forall i :: u < i < z ==> IsHex(buf[i]) || buf[i] == ':' || buf[i] == '.'
    requires z == h - 1 || (z < h - 2 && buf[z] == '%' && forall i :: z < i < h - 1 ==> IsZoneChar(buf[i]))
    ensures HostOver(at, buf, a, h) == HostWalk(V6End, u, h)
  {
    hide HostOver, IsHex;
    HostAddress(at, buf, a, u, z);
    HostOverNext(at, buf, a, z);
    MarksAreNoHex();
    if z < h - 1 {
      HostOverNext(at, buf, a, z + 1);
      if z + 2 < h - 1 {
        HostAlong(at, buf, a, z + 2, h - 1);
      }
      HostOverNext(at, buf, a, h - 1);
    }
  }

  lemma MarksAreNoHex()
    ensures !IsHex('%') && !IsHex(']')
  {
  }

  lemma HostPort(at: bool, buf: string, a: nat, h: nat, b: nat)
    requires a <= h && h + 1 < b <= |buf| && buf[h] == ':'
    requires HostOver(at, buf, a, h).s == Host || HostOver(at, buf, a, h).s == V6End
    requires forall i :: h < i < b ==> IsNum(buf[i])
    ensures HostOver(at, buf, a, b) == HostOver(at, buf, a, h).(s := Port)
  {
    hide HostOver;
    HostOverNext(at, buf, a, h);
    HostOverNext(at, buf, a, h + 1);
    if h + 2 < b {
      HostAlong(at, buf, a, h + 2, b);
    }
  }

  /** A piece of the buffer that was written from two. */
  lemma Pieces(buf: string, k: nat, s: string, t: string)
    requires k + |s| + |t| <= |buf| && buf[k..k + |s| + |t|] == s + t
    ensures buf[k..k + |s|] == s && buf[k + |s|..k + |s| + |t|] == t
  {
    assert buf[k..k + |s| + |t|][..|s|] == s && buf[k..k + |s| + |t|][|s|..] == t;
  }

  lemma ByteOf(buf: string, k: nat, s: string, i: nat)
    requires k + |s| <= |buf| && buf[k..k + |s|] == s && i < |s|
    ensures buf[k + i] == s[i]
  {
    assert buf[k..k + |s|][i] == buf[k + i];
  }

  lemma HostTextWalks(at: bool, buf: string, a: nat, u: nat, t: HostText)
    requires a <= u && u + |PrintHost(t)| <= |buf| && LegalHost(t)
    requires HostOver(at, buf, a, u) == HostWalk(HostStart, u, a)
    requires buf[u..u + |PrintHost(t)|] == PrintHost(t)
    ensures var h := u + |PrintHost(t)|;
            HostOver(at, buf, a, h) == HostWalk(if t.Name? then Host else V6End, u, h)
  {
    hide HostOver, IsHex, IsZoneChar, IsHostChar, PrintHost, LegalHost;
    var s := PrintHost(t);
    var h := u + |s|;
    forall i | 0 <= i < |s| ensures buf[u + i] == s[i] { ByteOf(buf, u, s, i); }
    assert forall i :: u <= i < h ==> buf[i] == s[i - u];
    if t.Name? {
      HostNameBytes(t);
      HostName(at, buf, a, u, h);
    } else {
      LiteralBytes(t);
      HostLiteral(at, buf, a, u, u + 1 + |t.address|, h);
    }
  }

  lemma HostNameBytes(t: HostText)
    requires t.Name? && LegalHost(t)
    ensures PrintHost(t) != "" && forall i :: 0 <= i < |PrintHost(t)| ==> IsHostChar(PrintHost(t)[i])
  {
  }

  /** The bytes of an address in brackets. */
  lemma LiteralBytes(t: HostText)
    requires t.Literal? && LegalHost(t)
    ensures var (s, z) := (PrintHost(t), 1 + |t.address|);
            && 1 < z < |s| && s[0] == '[' && s[|s| - 1] == ']'
            && (forall i :: 0 < i < z ==> IsHex(s[i]) || s[i] == ':' || s[i] == '.')
            && (z == |s| - 1 || (z < |s| - 2 && s[z] == '%' && forall i :: z < i < |s| - 1 ==> IsZoneChar(s[i])))
  {
    hide IsHex, IsZoneChar;
    var s := PrintHost(t);
    assert forall i :: 0 < i <= |t.address| ==> s[i] == t.address[i - 1];
    if t.zone.Some? {
      assert forall i :: |t.address| + 1 < i < |s| - 1 ==> s[i] == t.zone.value[i - |t.address| - 2];
    }
  }

  lemma AuthorityWalks(buf: string, a: nat, t: Authority)
    requires LegalAuthority(t) && a + |PrintAuthority(t)| <= |buf|
    requires buf[a..a + |PrintAuthority(t)|] == PrintAuthority(t)
    ensures var u := a + |Before(t.userinfo, "@")|;
            var h := u + |PrintHost(t.host)|;
            var b := a + |PrintAuthority(t)|;
            && HostOver(t.userinfo.Some?, buf, a, b) ==
                 HostWalk(if t.port.Some? then Port else if t.host.Name? then Host else V6End, u, h)
            && (t.port.Some? ==> h + 1 < b && buf[h + 1..b] == t.port.value && IsPort(t.port.value))
            && (t.port.None? ==> h == b)
  {
    hide HostOver, LegalHost, PrintHost, Decimal;
    var at := t.userinfo.Some?;
    var s, r, e := Before(t.userinfo, "@"), PrintHost(t.host), Behind(":", t.port);
    var u := a + |s|;
    var h := u + |r|;
    Pieces(buf, a, s + r, e);
    Pieces(buf, a, s, r);
    if at {
      forall i | 0 <= i < |s| ensures buf[a + i] == s[i] { ByteOf(buf, a, s, i); }
      assert forall i :: a <= i < u ==> buf[i] == s[i - a];
      HostUserinfo(buf, a, u);
    } else {
      assert HostOver(at, buf, a, u) == HostWalk(HostStart, u, a) by { HostStarts(buf, a); }
    }
    HostTextWalks(at, buf, a, u, t.host);
    if t.port.Some? {
      forall i | 0 <= i < |e| ensures buf[h + i] == e[i] { ByteOf(buf, h, e, i); }
      assert forall i :: h <= i < h + |e| ==> buf[i] == e[i - h];
      HostPort(at, buf, a, h, h + |e|);
      assert e[1..] == t.port.value && buf[h + 1..h + |e|] == e[1..];
    }
  }

  lemma HostStarts(buf: string, a: nat)
    requires a <= |buf|
    ensures HostOver(false, buf, a, a) == HostWalk(HostStart, a, a)
  {
  }

  /** In a written host part the only '@' is the one behind the user information. */
  lemma AuthorityBytes(t: Authority)
    requires LegalAuthority(t)
    ensures var s := PrintAuthority(t);
            && s != ""
            && (forall i :: 0 <= i < |s| ==> ServerByte(s[i]))
            && (forall i :: 0 <= i < |s| ==> (s[i] == '@' <==> t.userinfo.Some? && i == |t.userinfo.value|))
  {
    var s, r, e := Before(t.userinfo, "@"), PrintHost(t.host), Behind(":", t.port);
    HostBytes(t.host);
    assert forall i :: 0 <= i < |e| ==> ServerByte(e[i]) && e[i] != '@';
    assert forall i :: 0 <= i < |s| ==> ServerByte(s[i]) && (s[i] == '@' <==> i == |s| - 1);
    var p := PrintAuthority(t);
    forall i | 0 <= i < |p|
      ensures ServerByte(p[i]) && (p[i] == '@' <==> t.userinfo.Some? && i == |t.userinfo.value|)
    {
      hide ServerByte, LegalAuthority, PrintHost;
      if i < |s| {
        assert p[i] == s[i];
      } else if i < |s| + |r| {
        assert p[i] == r[i - |s|];
      } else {
        assert p[i] == e[i - |s| - |r|];
      }
    }
  }

  lemma HostBytes(h: HostText)
    requires LegalHost(h)
    ensures PrintHost(h) != "" && forall i :: 0 <= i < |PrintHost(h)| ==>
              ServerByte(PrintHost(h)[i]) && PrintHost(h)[i] != '@'
  {
    if h.Literal? {
      var s := PrintHost(h);
      assert forall i :: 0 < i <= |h.address| ==> s[i] == h.address[i - 1];
      if h.zone.Some? {
        assert forall i :: |h.address| + 1 < i < |s| - 1 ==> s[i] == h.zone.value[i - |h.address| - 2];
      }
    }
  }

  // ---------------------------------------------------------------- the whole URL

  lemma UrlPieces(u: UrlParts)
    ensures var buf := PrintUrl(u);
            var l := Cuts(u);
            && l.a <= l.u <= l.h <= l.b <= l.q <= l.f <= l.g <= |buf|
            && buf[..l.a] == PrintSchema(u.schema)
            && buf[l.a..l.b] == (if u.authority.Some? then PrintAuthority(u.authority.value) else "")
            && buf[l.b..l.q] == u.path && buf[l.q..l.f] == Behind("?", u.query)
            && buf[l.f..] == Hashes(u.marks) + u.fragment
  {
    hide PrintUrl, PrintHost, Cuts, PrintAuthority, PrintSchema, Behind, Hashes;
    CutLengths(u);
    var s := PrintSchema(u.schema);
    var t := if u.authority.Some? then PrintAuthority(u.authority.value) else "";
    var q, f := Behind("?", u.query), Hashes(u.marks) + u.fragment;
    FivePieces(s, t, u.path, q, f);
    UrlIsFive(u);
  }

  lemma UrlIsFive(u: UrlParts)
    ensures PrintUrl(u) ==
            PrintSchema(u.schema) + (if u.authority.Some? then PrintAuthority(u.authority.value) else "") + u.path
            + Behind("?", u.query) + (Hashes(u.marks) + u.fragment)
  {
    hide PrintAuthority, PrintSchema, Behind, Hashes;
  }

  lemma CutLengths(u: UrlParts)
    ensures var l := Cuts(u);
            && l.a == |PrintSchema(u.schema)|
            && l.b == l.a + (if u.authority.Some? then |PrintAuthority(u.authority.value)| else 0)
            && l.q == l.b + |u.path| && l.f == l.q + |Behind("?", u.query)|
            && l.a <= l.u <= l.h <= l.b && l.g == l.f + u.marks
  {
    hide PrintHost;
  }

  lemma FivePieces(a: string, b: string, c: string, d: string, e: string)
    ensures var s := a + b + c + d + e;
            var (i, j, k, l) := (|a|, |a| + |b|, |a| + |b| + |c|, |a| + |b| + |c| + |d|);
            s[..i] == a && s[i..j] == b && s[j..k] == c && s[k..l] == d && s[l..] == e && |s| == l + |e|
  {
  }

  lemma WalkToHost(u: UrlParts, isConnect: bool)
    requires LegalUrl(u, isConnect)
    ensures Cuts(u).a <= |PrintUrl(u)|
    ensures At(isConnect, PrintUrl(u), Cuts(u).a) ==
              WalkStart(isConnect).(s := if isConnect || u.schema != "" then ReqServerStart else ReqSpacesBeforeUrl,
                                    a := Cuts(u).a)
  {
    hide WalkOver, PrintAuthority, LegalAuthority, PrintUrl, Cuts;
    UrlPieces(u);
    var buf := PrintUrl(u);
    var s := PrintSchema(u.schema);
    CutSchema(u);
    if s == "" {
      WalkStarts(buf, seq(7, _ => Span(0, 0)), isConnect);
    } else {
      forall i | 0 <= i < |s| ensures buf[i] == s[i] { assert buf[..|s|][i] == buf[i]; }
      WalkSchema(buf, |u.schema|);
    }
  }

  lemma CutSchema(u: UrlParts)
    ensures Cuts(u).a == |PrintSchema(u.schema)|
  {
  }

  lemma WalkToPath(u: UrlParts, isConnect: bool)
    requires LegalUrl(u, isConnect)
    ensures Cuts(u).a <= Cuts(u).b <= |PrintUrl(u)|
    ensures var w := At(isConnect, PrintUrl(u), Cuts(u).b);
            && w == WalkStart(isConnect).(s := w.s, at := u.authority.Some? && u.authority.value.userinfo.Some?,
                                          a := Cuts(u).a)
            && (if u.authority.Some? then (w.s == ReqServer || w.s == ReqServerWithAt) && Cuts(u).a < Cuts(u).b
                else w.s == ReqSpacesBeforeUrl && Cuts(u).a == Cuts(u).b)
  {
    hide WalkOver, LegalAuthority, PrintUrl, Cuts, PrintAuthority, ServerByte;
    UrlPieces(u);
    WalkToHost(u, isConnect);
    var buf := PrintUrl(u);
    var a, b := Cuts(u).a, Cuts(u).b;
    if u.authority.Some? {
      var s := PrintAuthority(u.authority.value);
      AuthorityBytes(u.authority.value);
      forall i | a <= i < b ensures buf[i] == s[i - a] { assert buf[a..b][i - a] == buf[i]; }
      WalkServer(isConnect, buf, a, b);
      AuthorityAt(u.authority.value);
      if u.authority.value.userinfo.Some? {
        assert buf[a + |u.authority.value.userinfo.value|] == '@';
      }
    } else {
      assert b - a == |buf[a..b]| == 0;
    }
  }

  lemma AuthorityAt(t: Authority)
    ensures t.userinfo.Some? ==> |t.userinfo.value| < |PrintAuthority(t)|
  {
  }

  /** A URL written from legal parts is accepted, and its layout is where the parts end. */
  lemma UrlRoundTrip(u: UrlParts, isConnect: bool)
    requires LegalUrl(u, isConnect)
    ensures Accepts(PrintUrl(u), isConnect) && LayoutOf(PrintUrl(u), isConnect) == Cuts(u)
  {
    hide WalkOver, HostOver, LegalHost, PrintUrl, PrintAuthority, PrintHost, IsPort, Decimal;
    UrlPieces(u);
    WalkToEnd(u, isConnect);
    var buf := PrintUrl(u);
    var l := Cuts(u);
    if u.authority.Some? {
      AuthorityWalks(buf, l.a, u.authority.value);
      AuthorityBytes(u.authority.value);
      HostBytes(u.authority.value.host);
    }
  }

  /** The first pass over the schema and the host part leaves it here. */
  function AtPath(u: UrlParts, isConnect: bool, s: State): Walk {
    WalkStart(isConnect).(s := s, at := u.authority.Some? && u.authority.value.userinfo.Some?, a := Cuts(u).a)
  }

  lemma WalkToQuery(u: UrlParts, isConnect: bool)
    requires LegalUrl(u, isConnect)
    ensures Cuts(u).b <= Cuts(u).q <= |PrintUrl(u)| && Cuts(u).q - Cuts(u).b == |u.path|
    ensures var w := At(isConnect, PrintUrl(u), Cuts(u).q);
            if u.path != "" then w == AtPath(u, isConnect, ReqPath).(b := Cuts(u).b)
            else (w.s == ReqServer || w.s == ReqServerWithAt) && w == AtPath(u, isConnect, w.s)
  {
    hide WalkOver, LegalAuthority, PrintUrl, Cuts, PrintAuthority, PrintSchema, IsUrlChar, IsAlpha, UrlChar, NextWalk;
    UrlPieces(u);
    WalkToPath(u, isConnect);
    var buf := PrintUrl(u);
    var l := Cuts(u);
    forall i | l.b <= i < l.q ensures buf[i] == u.path[i - l.b] { assert buf[l.b..l.q][i - l.b] == buf[i]; }
    assert l.q - l.b == |u.path|;
    if u.path != "" {
      WalkPath(isConnect, buf, l.b, l.q);
    }
  }

  lemma WalkToFragment(u: UrlParts, isConnect: bool)
    requires LegalUrl(u, isConnect)
    ensures Cuts(u).q <= Cuts(u).f <= |PrintUrl(u)|
    ensures var w := At(isConnect, PrintUrl(u), Cuts(u).f);
            var l := Cuts(u);
            if u.query.Some? then
              && (w.s == if u.query.value == "" then ReqQueryStringStart else ReqQueryString)
              && w == AtPath(u, isConnect, w.s).(b := l.b, q := l.q)
            else l.f == l.q && w == At(isConnect, PrintUrl(u), l.q)
  {
    hide WalkOver, LegalAuthority, PrintUrl, Cuts, PrintAuthority;
    UrlPieces(u);
    WalkToQuery(u, isConnect);
    var buf := PrintUrl(u);
    var l := Cuts(u);
    var s := Behind("?", u.query);
    forall i | l.q <= i < l.f ensures buf[i] == s[i - l.q] { assert buf[l.q..l.f][i - l.q] == buf[i]; }
    assert l.f - l.q == |s|;
    if u.query.Some? {
      WalkQuery(isConnect, buf, l.q, l.f);
    }
  }

  /** The bytes behind the query. */
  lemma TailBytes(u: UrlParts)
    ensures var (buf, l) := (PrintUrl(u), Cuts(u));
            && l.f + u.marks == l.g <= |buf| && |buf| - l.g == |u.fragment|
            && AllHashes(buf, l.f, l.g) && forall i :: l.g <= i < |buf| ==> buf[i] == u.fragment[i - l.g]
  {
    hide PrintUrl, Cuts, PrintAuthority, PrintSchema, Behind;
    UrlPieces(u);
    CutFragment(u);
    var (buf, l) := (PrintUrl(u), Cuts(u));
    var e := Hashes(u.marks) + u.fragment;
    assert buf[l.f..] == e && |e| == |buf| - l.f;
    forall i | l.f <= i < |buf| ensures buf[i] == e[i - l.f] { assert buf[l.f..][i - l.f] == buf[i]; }
  }

  lemma WalkToEnd(u: UrlParts, isConnect: bool)
    requires LegalUrl(u, isConnect)
    ensures var w := Closed(WalkOver(isConnect, PrintUrl(u)), |PrintUrl(u)|);
            var l := Cuts(u);
            && ReqServer <= w.s && w.at == (u.authority.Some? && u.authority.value.userinfo.Some?)
            && w.a == l.a && w.b == l.b && w.q == l.q && w.f == l.f && w.g == l.g
  {
    hide WalkOver, LegalAuthority, PrintUrl, Cuts, PrintAuthority, AllHashes, IsUrlChar;
    TailBytes(u);
    WalkToQuery(u, isConnect);
    WalkToFragment(u, isConnect);
    var buf := PrintUrl(u);
    var l := Cuts(u);
    if u.marks > 0 {
      WalkHashes(isConnect, buf, l.f, l.g);
    }
    if u.fragment != "" {
      WalkFragment(isConnect, buf, l.g, |buf|);
    }
    assert buf[..|buf|] == buf;
  }

  lemma CutFragment(u: UrlParts)
    ensures Cuts(u).g == Cuts(u).f + u.marks
  {
  }

  // ---------------------------------------------------------------- the recorded fields

  /** What the field of a part holds: of a literal, the address and its zone without the
      brackets. */
  function FieldText(u: UrlParts, uf: UrlField): string {
    if uf == SCHEMA then u.schema
    else if uf == PATH then u.path
    else if uf == QUERY then Behind("", u.query)
    else if uf == FRAGMENT then u.fragment
    else if u.authority.None? then ""
    else
      var t := u.authority.value;
      if uf == USERINFO then Behind("", t.userinfo)
      else if uf == HOST then HostWithin(t.host)
      else if uf == PORT then Behind("", t.port)
      else ""
  }

  function HostWithin(h: HostText): string {
    match h
    case Name(n) => n
    case Literal(v, z) => v + Behind("%", z)
  }

  /** `s` is where `text` stands. */
  predicate Holds(buf: string, s: Span, text: string) {
    s.off + s.len <= |buf| && buf[s.off..s.off + s.len] == text
  }

  /** A field is set exactly if its part is not empty, and then it holds that part. */
  ghost predicate FieldIs(buf: string, fields: set<UrlField>, data: seq<Span>, uf: UrlField, text: string)
    requires |data| == 7 && uf < 7
  {
    (uf in fields <==> text != "") && (uf in fields ==> Holds(buf, data[uf], text))
  }

  lemma PieceHolds(buf: string, off: nat, text: string, from: nat, to: nat)
    requires off + |text| <= |buf| && buf[off..off + |text|] == text && from <= to <= |text|
    ensures Holds(buf, Span(off + from, to - from), text[from..to])
  {
    var a, b := buf[off + from..off + to], text[from..to];
    forall i | 0 <= i < to - from ensures a[i] == b[i] {
      ByteOf(buf, off, text, from + i);
    }
  }

  /** A part behind a mark. */
  lemma BehindHolds(buf: string, mark: string, k: nat, n: nat, s: Option<string>)
    requires |mark| == 1 && s.Some? && k <= n <= |buf| && buf[k..n] == Behind(mark, s)
    ensures n == k + 1 + |s.value| && Behind("", s) == s.value && Holds(buf, Span(k + 1, n - k - 1), s.value)
  {
    var text := Behind(mark, s);
    PieceHolds(buf, k, text, 1, |text|);
    assert text[1..|text|] == s.value && "" + s.value == s.value;
  }

  lemma PathField(u: UrlParts, fields: set<UrlField>, data: seq<Span>)
    requires |data| == 7
    requires PathFits(PrintUrl(u), fields, data, Cuts(u).b, Cuts(u).q)
    ensures FieldIs(PrintUrl(u), fields, data, PATH, u.path)
  {
    hide PrintUrl, Cuts, PrintAuthority, PrintSchema;
    UrlPieces(u);
    assert |u.path| == Cuts(u).q - Cuts(u).b;
  }

  lemma SchemaField(u: UrlParts, fields: set<UrlField>, data: seq<Span>)
    requires |data| == 7 && SchemaFits(PrintUrl(u), fields, data, Cuts(u).a)
    ensures FieldIs(PrintUrl(u), fields, data, SCHEMA, u.schema)
  {
    hide PrintUrl, Cuts, PrintAuthority;
    UrlPieces(u);
    CutSchema(u);
    var s, buf := PrintSchema(u.schema), PrintUrl(u);
    if u.schema != "" {
      assert buf[0..|s|] == buf[..|s|];
      PieceHolds(buf, 0, s, 0, |s| - 3);
      assert s[..|s| - 3] == u.schema;
    }
  }

  lemma QueryField(u: UrlParts, fields: set<UrlField>, data: seq<Span>)
    requires |data| == 7
    requires QueryFits(PrintUrl(u), fields, data, Cuts(u).q, Cuts(u).f)
    ensures FieldIs(PrintUrl(u), fields, data, QUERY, Behind("", u.query))
  {
    hide PrintUrl, Cuts, PrintAuthority, PrintSchema, QueryFits, Behind;
    UrlPieces(u);
    QueryHolds(PrintUrl(u), fields, data, Cuts(u).q, Cuts(u).f, u.query);
  }

  lemma QueryHolds(buf: string, fields: set<UrlField>, data: seq<Span>, q: nat, f: nat, s: Option<string>)
    requires |data| == 7 && q <= f <= |buf| && buf[q..f] == Behind("?", s) && QueryFits(buf, fields, data, q, f)
    ensures FieldIs(buf, fields, data, QUERY, Behind("", s))
  {
    assert |buf[q..f]| == f - q;
    if s.Some? {
      BehindHolds(buf, "?", q, f, s);
    }
  }

  lemma FragmentField(u: UrlParts, fields: set<UrlField>, data: seq<Span>)
    requires |data| == 7 && FragmentFits(PrintUrl(u), fields, data, Cuts(u).f, Cuts(u).g, |PrintUrl(u)|)
    ensures FieldIs(PrintUrl(u), fields, data, FRAGMENT, u.fragment)
  {
    hide PrintUrl, Cuts, PrintAuthority, PrintSchema, Behind, AllHashes;
    UrlPieces(u);
    CutFragment(u);
    var buf, f := PrintUrl(u), Cuts(u).f;
    var s := Hashes(u.marks) + u.fragment;
    assert |buf[f..]| == |buf| - f && |s| == u.marks + |u.fragment|;
    assert buf[f..f + |s|] == s;
    PieceHolds(buf, f, s, u.marks, |s|);
    assert s[u.marks..|s|] == u.fragment;
  }

  /** The parts of the authority, where they were written. */
  lemma AuthorityPieces(u: UrlParts)
    requires u.authority.Some?
    ensures var t := u.authority.value;
            var l, buf := Cuts(u), PrintUrl(u);
            && l.a <= l.u <= l.h <= l.b <= |buf|
            && buf[l.a..l.u] == Before(t.userinfo, "@") && buf[l.u..l.h] == PrintHost(t.host)
            && buf[l.h..l.b] == Behind(":", t.port)
  {
    hide PrintUrl, PrintHost;
    UrlPieces(u);
    var t := u.authority.value;
    var l, buf := Cuts(u), PrintUrl(u);
    var s, r, e := Before(t.userinfo, "@"), PrintHost(t.host), Behind(":", t.port);
    assert l.u == l.a + |s| && l.h == l.u + |r| && l.b == l.h + |e|;
    Pieces(buf, l.a, s + r, e);
    Pieces(buf, l.a, s, r);
  }

  lemma UserinfoField(u: UrlParts, fields: set<UrlField>, data: seq<Span>)
    requires |data| == 7 && u.authority.Some?
    requires UserinfoFits(PrintUrl(u), fields, data, Cuts(u).a, Cuts(u).u)
    ensures FieldIs(PrintUrl(u), fields, data, USERINFO, Behind("", u.authority.value.userinfo))
  {
    hide PrintUrl, Cuts, PrintAuthority, PrintSchema, PrintHost;
    AuthorityPieces(u);
    var i := u.authority.value.userinfo;
    var s := Before(i, "@");
    assert |s| == Cuts(u).u - Cuts(u).a;
    if i.Some? {
      PieceHolds(PrintUrl(u), Cuts(u).a, s, 0, |s| - 1);
      assert s[0..|s| - 1] == i.value == Behind("", i);
    }
  }

  lemma PortField(u: UrlParts, fields: set<UrlField>, data: seq<Span>)
    requires |data| == 7 && u.authority.Some? && LegalAuthority(u.authority.value)
    requires PortFits(PrintUrl(u), fields, data, Cuts(u).h, Cuts(u).b)
    ensures FieldIs(PrintUrl(u), fields, data, PORT, Behind("", u.authority.value.port))
  {
    hide PrintUrl, Cuts, PrintAuthority, PrintSchema, PrintHost, LegalHost, Decimal;
    AuthorityPieces(u);
    var i := u.authority.value.port;
    assert |PrintUrl(u)[Cuts(u).h..Cuts(u).b]| == Cuts(u).b - Cuts(u).h;
    if i.Some? {
      BehindHolds(PrintUrl(u), ":", Cuts(u).h, Cuts(u).b, i);
    }
  }

  lemma HostField(u: UrlParts, fields: set<UrlField>, data: seq<Span>)
    requires |data| == 7 && u.authority.Some? && LegalHost(u.authority.value.host) && HOST in fields
    requires HostFits(PrintUrl(u), data, Cuts(u).u, Cuts(u).h)
    ensures FieldIs(PrintUrl(u), fields, data, HOST, HostWithin(u.authority.value.host))
  {
    hide PrintUrl, Cuts, PrintAuthority, PrintSchema, HostFits, LegalHost, PrintHost, HostWithin, Before, Behind;
    AuthorityPieces(u);
    if u.authority.value.host.Name? {
      NameHolds(PrintUrl(u), data, Cuts(u).u, Cuts(u).h, u.authority.value.host);
    } else {
      LiteralHolds(PrintUrl(u), data, Cuts(u).u, Cuts(u).h, u.authority.value.host);
    }
  }

  lemma NameHolds(buf: string, data: seq<Span>, u: nat, h: nat, t: HostText)
    requires |data| == 7 && HostFits(buf, data, u, h) && LegalHost(t) && t.Name?
    requires u <= h <= |buf| && buf[u..h] == PrintHost(t)
    ensures HostWithin(t) != "" && Holds(buf, data[HOST], HostWithin(t))
  {
    ByteOf(buf, u, t.name, 0);
    assert IsHostChar(t.name[0]);
    assert |buf[u..h]| == h - u;
  }

  lemma LiteralHolds(buf: string, data: seq<Span>, u: nat, h: nat, t: HostText)
    requires |data| == 7 && HostFits(buf, data, u, h) && LegalHost(t) && t.Literal?
    requires u <= h <= |buf| && buf[u..h] == PrintHost(t)
    ensures HostWithin(t) != "" && Holds(buf, data[HOST], HostWithin(t))
  {
    hide Behind;
    var s, w := PrintHost(t), HostWithin(t);
    assert s == "[" + w + "]" && |s| == |w| + 2 == h - u;
    ByteOf(buf, u, s, 0);
    PieceHolds(buf, u, s, 1, |s| - 1);
    assert s[1..|s| - 1] == w;
  }

  /** What the splitter records of a URL written from legal parts: a field is set exactly if its
      part is not empty and then holds that part; a literal is held without its brackets, but
      with its zone. */
  lemma WrittenFields(u: UrlParts, isConnect: bool, fields: set<UrlField>, data: seq<Span>)
    requires |data| == 7 && LegalUrl(u, isConnect)
    requires Tiles(PrintUrl(u), fields, data, LayoutOf(PrintUrl(u), isConnect))
    ensures forall uf: UrlField :: uf < 7 ==> FieldIs(PrintUrl(u), fields, data, uf, FieldText(u, uf))
  {
    hide LegalUrl, LegalAuthority, LayoutOf, PrintUrl, Cuts, SchemaFits, UserinfoFits, HostFits, PortFits, PathFits,
      QueryFits, FragmentFits, FieldIs;
    UrlRoundTrip(u, isConnect);
    SchemaField(u, fields, data);
    PathField(u, fields, data);
    QueryField(u, fields, data);
    FragmentField(u, fields, data);
    if u.authority.Some? {
      HostIsSet(u, isConnect, fields, data);
      UserinfoField(u, fields, data);
      HostField(u, fields, data);
      PortField(u, fields, data);
    } else {
      NoHostIsSet(u, isConnect, fields, data);
    }
  }

  lemma HostIsSet(u: UrlParts, isConnect: bool, fields: set<UrlField>, data: seq<Span>)
    requires |data| == 7 && LegalUrl(u, isConnect) && u.authority.Some? && Tiles(PrintUrl(u), fields, data, Cuts(u))
    ensures HOST in fields && LegalAuthority(u.authority.value) && LegalHost(u.authority.value.host)
  {
    hide PrintUrl, LegalHost, SchemaFits, PathFits, QueryFits, FragmentFits, PrintHost;
    HostBytes(u.authority.value.host);
  }

  lemma NoHostIsSet(u: UrlParts, isConnect: bool, fields: set<UrlField>, data: seq<Span>)
    requires |data| == 7 && LegalUrl(u, isConnect) && u.authority.None? && Tiles(PrintUrl(u), fields, data, Cuts(u))
    ensures HOST !in fields && USERINFO !in fields && PORT !in fields
    ensures forall uf: UrlField | uf == HOST || uf == USERINFO || uf == PORT ::
              FieldIs(PrintUrl(u), fields, data, uf, FieldText(u, uf))
  {
    hide PrintUrl, SchemaFits, PathFits, QueryFits, FragmentFits;
  }

  /** The port number is the one that was written. */
  lemma WrittenPort(u: UrlParts, isConnect: bool, fields: set<UrlField>, data: seq<Span>, port: nat)
    requires |data| == 7 && LegalUrl(u, isConnect)
    requires Tiles(PrintUrl(u), fields, data, LayoutOf(PrintUrl(u), isConnect))
    requires PORT in fields ==>
               var s := data[PORT];
               s.off + s.len <= |PrintUrl(u)| && IsPort(PrintUrl(u)[s.off..s.off + s.len])
               && port == Decimal(PrintUrl(u)[s.off..s.off + s.len])
    requires PORT !in fields ==> port == 0
    ensures var text := FieldText(u, PORT);
            text != "" ==> IsDecimal(text) && port == Decimal(text)
    ensures FieldText(u, PORT) == "" ==> port == 0
  {
    hide LegalUrl, LayoutOf, PrintUrl, Tiles, FieldText, Decimal;
    WrittenFields(u, isConnect, fields, data);
    assert FieldIs(PrintUrl(u), fields, data, PORT, FieldText(u, PORT));
  }
}
