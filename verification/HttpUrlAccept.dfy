/** The splitter takes no URL but the written ones: whatever it accepts can be written from legal
    parts, so with the round trip of HttpUrlPrint it accepts exactly those.
 */
module HttpUrlAccept {
  import opened Options
  import opened HttpTypes
  import opened HttpStep
  import opened HttpBodies
  import opened HttpUrl
  import opened HttpUrlPrint

  // ---------------------------------------------------------------- pieces of the buffer

  predicate Within(buf: string, i: int, j: int) { 0 <= i <= j <= |buf| }

  ghost predicate Alphas(buf: string, i: int, j: int) {
    Within(buf, i, j) && forall n :: i <= n < j ==> IsAlpha(buf[n])
  }

  ghost predicate Nums(buf: string, i: int, j: int) { Within(buf, i, j) && forall n :: i <= n < j ==> IsNum(buf[n]) }

  ghost predicate UserinfoBytes(buf: string, i: int, j: int) {
    Within(buf, i, j) && forall n :: i <= n < j ==> IsUserinfoChar(buf[n])
  }

  ghost predicate NameBytes(buf: string, i: int, j: int) {
    Within(buf, i, j) && forall n :: i <= n < j ==> IsHostChar(buf[n])
  }

  ghost predicate AddressBytes(buf: string, i: int, j: int) {
    Within(buf, i, j) && forall n :: i <= n < j ==> IsHex(buf[n]) || buf[n] == ':' || buf[n] == '.'
  }

  ghost predicate ZoneBytes(buf: string, i: int, j: int) {
    Within(buf, i, j) && forall n :: i <= n < j ==> IsZoneChar(buf[n])
  }

  ghost predicate PathBytes(buf: string, i: int, j: int) {
    Within(buf, i, j) && forall n :: i <= n < j ==> IsUrlChar(buf[n])
  }

  ghost predicate QueryBytes(buf: string, i: int, j: int) {
    Within(buf, i, j) && forall n :: i <= n < j ==> IsUrlChar(buf[n]) || buf[n] == '?'
  }

  ghost predicate FragmentBytes(buf: string, i: int, j: int) {
    Within(buf, i, j) && forall n :: i <= n < j ==> IsUrlChar(buf[n]) || buf[n] == '?' || buf[n] == '#'
  }

  // ---------------------------------------------------------------- what the first pass has read

  ghost predicate SchemaEnds(buf: string, a: nat) {
    a == 0 || (3 < a <= |buf| && Alphas(buf, 0, a - 3) && buf[a - 3] == ':' && buf[a - 2] == '/' && buf[a - 1] == '/')
  }

  ghost predicate SchemaRead(buf: string, k: nat, w: Walk, isConnect: bool)
    requires k <= |buf|
  {
    && (isConnect ==> w.s >= ReqServerStart && w.a == 0)
    && (w.s == ReqSpacesBeforeUrl ==> k == 0 && w.a == 0)
    && (ReqSchema <= w.s <= ReqSchemaSlashSlash ==>
          var n := k - (w.s - ReqSchema);
          n > 0 && Alphas(buf, 0, n) && (w.s > ReqSchema ==> buf[n] == ':')
          && (w.s == ReqSchemaSlashSlash ==> buf[n + 1] == '/'))
    && (w.s >= ReqServerStart ==> w.a <= k && SchemaEnds(buf, w.a))
  }

  /** The path between b and q; what begins with neither a schema nor a CONNECT begins with it. */
  ghost predicate PathBetween(buf: string, a: nat, b: nat, q: nat, isConnect: bool) {
    && a <= b && PathBytes(buf, b, q)
    && (b < q ==> buf[b] == '/' || (buf[b] == '*' && b == 0 && !isConnect))
    && (!isConnect && a == 0 ==> b == 0 && b < q)
  }

  ghost predicate PathRead(buf: string, k: nat, w: Walk, isConnect: bool)
    requires k <= |buf|
  {
    && (ReqServerStart <= w.s <= ReqServerWithAt ==> isConnect || w.a > 0)
    && (w.s == ReqServerStart ==> w.a == k)
    && (w.s == ReqPath ==> w.b < k && PathBetween(buf, w.a, w.b, k, isConnect))
    && (w.s > ReqPath ==> PathBetween(buf, w.a, w.b, w.q, isConnect))
  }

  ghost predicate QueryRead(buf: string, k: nat, w: Walk)
    requires k <= |buf|
  {
    && (w.s == ReqQueryStringStart ==> w.q + 1 == k && buf[w.q] == '?')
    && (w.s == ReqQueryString ==> w.q + 1 < k && buf[w.q] == '?' && QueryBytes(buf, w.q + 1, k))
    && (w.s > ReqQueryString ==>
          && w.q <= w.f <= k
          && (if w.q < w.f then buf[w.q] == '?' && QueryBytes(buf, w.q + 1, w.f) else w.b < w.q))
  }

  ghost predicate FragmentRead(buf: string, k: nat, w: Walk)
    requires k <= |buf|
  {
    && (w.s == ReqFragmentStart ==> w.f < w.g == k && AllHashes(buf, w.f, k))
    && (w.s == ReqFragment ==>
          w.f < w.g < k && AllHashes(buf, w.f, w.g) && buf[w.g] != '#' && FragmentBytes(buf, w.g, k))
  }

  ghost predicate UrlRead(buf: string, k: nat, w: Walk, isConnect: bool)
    requires k <= |buf|
  {
    && SchemaRead(buf, k, w, isConnect) && PathRead(buf, k, w, isConnect) && QueryRead(buf, k, w)
    && FragmentRead(buf, k, w) && ReqSpacesBeforeUrl <= w.s <= ReqFragment
  }

  lemma SchemaNext(buf: string, k: nat, w: Walk, isConnect: bool)
    requires k < |buf| && UrlRead(buf, k, w, isConnect) && UrlChar(w.s, buf[k]) != Dead
    ensures SchemaRead(buf, k + 1, NextWalk(w, buf[k], k), isConnect)
  {
    hide PathRead, QueryRead, FragmentRead, IsUrlChar, IsUserinfoChar, IsAlpha;
  }

  lemma PathNext(buf: string, k: nat, w: Walk, isConnect: bool)
    requires k < |buf| && UrlRead(buf, k, w, isConnect) && UrlChar(w.s, buf[k]) != Dead
    ensures PathRead(buf, k + 1, NextWalk(w, buf[k], k), isConnect)
  {
    hide QueryRead, FragmentRead, IsUserinfoChar, IsAlpha, SchemaEnds, Alphas;
  }

  lemma QueryNext(buf: string, k: nat, w: Walk, isConnect: bool)
    requires k < |buf| && UrlRead(buf, k, w, isConnect) && UrlChar(w.s, buf[k]) != Dead
    ensures QueryRead(buf, k + 1, NextWalk(w, buf[k], k))
  {
    hide SchemaRead, FragmentRead, IsUserinfoChar, IsAlpha, IsUrlChar;
    if w.s == ReqQueryStringStart {
    } else if w.s == ReqQueryString {
    } else if w.s == ReqPath {
    }
  }

  lemma FragmentNext(buf: string, k: nat, w: Walk, isConnect: bool)
    requires k < |buf| && UrlRead(buf, k, w, isConnect) && UrlChar(w.s, buf[k]) != Dead
    ensures FragmentRead(buf, k + 1, NextWalk(w, buf[k], k))
  {
    hide SchemaRead, PathRead, QueryRead, IsUserinfoChar, IsAlpha;
  }

  lemma {:induction false} WalkReads(isConnect: bool, buf: string, k: nat)
    requires k <= |buf| && At(isConnect, buf, k).s != Dead
    ensures UrlRead(buf, k, At(isConnect, buf, k), isConnect)
  {
    hide WalkOver, SchemaRead, PathRead, QueryRead, FragmentRead, UrlChar;
    if k == 0 {
      ReadsStart(isConnect, buf);
    } else {
      WalkOverNext(isConnect, buf, k - 1);
      DeadStaysDead(buf[k - 1]);
      WalkReads(isConnect, buf, k - 1);
      var w := At(isConnect, buf, k - 1);
      SchemaNext(buf, k - 1, w, isConnect);
      PathNext(buf, k - 1, w, isConnect);
      QueryNext(buf, k - 1, w, isConnect);
      FragmentNext(buf, k - 1, w, isConnect);
      UrlCharStays(w.s, buf[k - 1]);
    }
  }

  lemma ReadsStart(isConnect: bool, buf: string)
    ensures UrlRead(buf, 0, At(isConnect, buf, 0), isConnect)
  {
  }

  lemma DeadStaysDead(ch: char)
    ensures UrlChar(Dead, ch) == Dead
  {
  }

  // ---------------------------------------------------------------- what the second pass has read

  /** These bytes are a written host. */
  ghost predicate HostWritten(buf: string, u: nat, h: nat) {
    u < h <= |buf| && exists t :: LegalHost(t) && PrintHost(t) == buf[u..h]
  }

  ghost predicate ZoneAt(buf: string, u: nat, z: nat, k: nat) {
    && u + 1 < z < k - 1 && k <= |buf| && buf[u] == '[' && AddressBytes(buf, u + 1, z) && buf[z] == '%'
    && ZoneBytes(buf, z + 1, k)
  }

  ghost predicate UserinfoRead(buf: string, a: nat, k: nat, v: HostWalk)
    requires a <= k <= |buf|
  {
    if v.s == UserinfoStart then a == k
    else if v.s == Userinfo then UserinfoBytes(buf, a, k)
    else v.u == a || (a < v.u <= k && buf[v.u - 1] == '@' && UserinfoBytes(buf, a, v.u - 1))
  }

  ghost predicate NameRead(buf: string, k: nat, v: HostWalk)
    requires k <= |buf|
  {
    && (v.s == HostStart ==> v.u == k)
    && (v.s == V6Start ==> v.u + 1 == k && buf[v.u] == '[')
    && (v.s == Host ==> v.u < k == v.h && NameBytes(buf, v.u, k))
    && (v.s == V6 ==> v.u + 1 < k && buf[v.u] == '[' && AddressBytes(buf, v.u + 1, k))
    && (v.s == ZoneStart ==>
          v.u + 1 < k - 1 && buf[v.u] == '[' && AddressBytes(buf, v.u + 1, k - 1) && buf[k - 1] == '%')
    && (v.s == Zone ==> exists z :: ZoneAt(buf, v.u, z, k))
  }

  ghost predicate PortRead(buf: string, k: nat, v: HostWalk)
    requires k <= |buf|
  {
    && (v.s == V6End ==> k == v.h && HostWritten(buf, v.u, v.h))
    && (v.s == PortStart ==> v.h + 1 == k && buf[v.h] == ':' && HostWritten(buf, v.u, v.h))
    && (v.s == Port ==> v.h + 1 < k && buf[v.h] == ':' && HostWritten(buf, v.u, v.h) && Nums(buf, v.h + 1, k))
  }

  lemma NameIsWritten(buf: string, u: nat, h: nat)
    requires u < h && NameBytes(buf, u, h)
    ensures HostWritten(buf, u, h)
  {
    hide IsHostChar;
    var t := Name(buf[u..h]);
    assert LegalHost(t) && PrintHost(t) == buf[u..h];
  }

  lemma AddressIsWritten(buf: string, u: nat, h: nat)
    requires u + 2 < h <= |buf| && buf[u] == '[' && buf[h - 1] == ']' && AddressBytes(buf, u + 1, h - 1)
    ensures HostWritten(buf, u, h)
  {
    hide IsHex;
    var t := Literal(buf[u + 1..h - 1], None);
    assert LegalHost(t);
    assert PrintHost(t) == buf[u..h];
  }

  lemma ZoneIsWritten(buf: string, u: nat, z: nat, h: nat)
    requires h <= |buf| && 0 < h && ZoneAt(buf, u, z, h - 1) && buf[h - 1] == ']'
    ensures HostWritten(buf, u, h)
  {
    hide IsHex, IsZoneChar;
    var t := Literal(buf[u + 1..z], Some(buf[z + 1..h - 1]));
    assert LegalHost(t);
    assert PrintHost(t) == buf[u..h];
  }

  lemma UserinfoNext(buf: string, a: nat, k: nat, v: HostWalk)
    requires a <= k < |buf| && UserinfoRead(buf, a, k, v) && HostChar(v.s, buf[k]) != HostDead
    ensures UserinfoRead(buf, a, k + 1, NextHost(v, buf[k], k))
  {
    hide IsUserinfoChar, IsHostChar, IsZoneChar, IsHex;
  }

  lemma NameNext(buf: string, k: nat, v: HostWalk)
    requires k < |buf| && NameRead(buf, k, v) && HostChar(v.s, buf[k]) != HostDead
    ensures NameRead(buf, k + 1, NextHost(v, buf[k], k))
  {
    hide IsUserinfoChar, IsHostChar, IsZoneChar, IsHex;
    if v.s == ZoneStart {
      assert ZoneAt(buf, v.u, k - 1, k + 1);
    } else if v.s == Zone {
      var z :| ZoneAt(buf, v.u, z, k);
      assert HostChar(v.s, buf[k]) == Zone ==> ZoneAt(buf, v.u, z, k + 1);
    }
  }

  lemma PortNext(buf: string, k: nat, v: HostWalk)
    requires k < |buf| && NameRead(buf, k, v) && PortRead(buf, k, v) && HostChar(v.s, buf[k]) != HostDead
    ensures PortRead(buf, k + 1, NextHost(v, buf[k], k))
  {
    hide IsUserinfoChar, IsHostChar, IsZoneChar, IsHex, HostWritten, ZoneAt, IsNum;
    if v.s == Host {
      NameIsWritten(buf, v.u, k);
    } else if v.s == V6 && buf[k] == ']' {
      AddressIsWritten(buf, v.u, k + 1);
    } else if v.s == Zone && buf[k] == ']' {
      var z :| ZoneAt(buf, v.u, z, k);
      ZoneIsWritten(buf, v.u, z, k + 1);
    }
  }

  lemma {:induction false} HostReads(at: bool, buf: string, a: nat, k: nat)
    requires a <= k <= |buf| && HostOver(at, buf, a, k).s != HostDead
    ensures var v := HostOver(at, buf, a, k); UserinfoRead(buf, a, k, v) && NameRead(buf, k, v) && PortRead(buf, k, v)
    decreases k
  {
    hide HostChar, UserinfoRead, NameRead, PortRead;
    if k == a {
      HostReadsStart(at, buf, a);
    } else {
      HostOverNext(at, buf, a, k - 1);
      HostDeadStays(buf[k - 1]);
      HostReads(at, buf, a, k - 1);
      var v := HostOver(at, buf, a, k - 1);
      UserinfoNext(buf, a, k - 1, v);
      NameNext(buf, k - 1, v);
      PortNext(buf, k - 1, v);
    }
  }

  lemma HostReadsStart(at: bool, buf: string, a: nat)
    requires a <= |buf|
    ensures var v := HostOver(at, buf, a, a); UserinfoRead(buf, a, a, v) && NameRead(buf, a, v) && PortRead(buf, a, v)
  {
  }

  lemma HostDeadStays(ch: char)
    ensures HostChar(HostDead, ch) == HostDead
  {
  }

  // ---------------------------------------------------------------- the whole URL

  /** Where an accepted host part is divided. */
  lemma HostDivides(at: bool, buf: string, a: nat, b: nat)
    requires a < b <= |buf| && HostEnds(HostOver(at, buf, a, b).s)
    ensures var v := HostOver(at, buf, a, b);
            && a <= v.u < v.h <= b && HostWritten(buf, v.u, v.h)
            && (v.u == a || (a < v.u && buf[v.u - 1] == '@' && UserinfoBytes(buf, a, v.u - 1)))
            && (v.h < b ==> buf[v.h] == ':')
  {
    hide HostOver, HostWritten, UserinfoBytes, IsHostChar, IsHex, Nums;
    HostReads(at, buf, a, b);
    var v := HostOver(at, buf, a, b);
    if v.s == Host {
      NameIsWritten(buf, v.u, v.h);
    }
    assert HostWritten(buf, v.u, v.h) ==> v.u < v.h by { WrittenIsText(buf, v.u, v.h); }
  }

  lemma WrittenIsText(buf: string, u: nat, h: nat)
    requires HostWritten(buf, u, h)
    ensures u < h <= |buf|
  {
  }

  /** The authority an accepted host part was written from. */
  lemma AuthorityWritten(at: bool, buf: string, a: nat, b: nat) returns (t: Authority)
    requires a < b <= |buf|
    requires var v := HostOver(at, buf, a, b);
             HostEnds(v.s) && (v.h < b <= |buf| ==> IsPort(buf[v.h + 1..b]))
    ensures LegalAuthority(t) && PrintAuthority(t) == buf[a..b]
    ensures var v := HostOver(at, buf, a, b);
            && a <= v.u < v.h <= b && (t.port.Some? <==> v.h < b)
            && if v.u == a then t.userinfo == None else t.userinfo.Some? && |t.userinfo.value| == v.u - a - 1
  {
    hide HostOver, HostEnds;
    HostDivides(at, buf, a, b);
    var v := HostOver(at, buf, a, b);
    t := PartsWritten(buf, a, v.u, v.h, b);
  }

  lemma PartsWritten(buf: string, a: nat, u: nat, h: nat, b: nat) returns (t: Authority)
    requires a <= u < h <= b <= |buf| && HostWritten(buf, u, h)
    requires u == a || (buf[u - 1] == '@' && UserinfoBytes(buf, a, u - 1))
    requires h < b ==> buf[h] == ':' && IsPort(buf[h + 1..b])
    ensures LegalAuthority(t) && PrintAuthority(t) == buf[a..b] && (t.port.Some? <==> h < b)
    ensures if u == a then t.userinfo == None else t.userinfo.Some? && |t.userinfo.value| == u - a - 1
  {
    hide IsUserinfoChar, LegalHost, PrintHost, IsPort, Decimal, IsDecimal;
    if h < b {
      PortIs(buf[h + 1..b]);
    }
    var host :| LegalHost(host) && PrintHost(host) == buf[u..h];
    t := Authority(if u == a then None else Some(buf[a..u - 1]), host, if h < b then Some(buf[h + 1..b]) else None);
    assert Before(t.userinfo, "@") == buf[a..u];
    assert Behind(":", t.port) == buf[h..b];
    assert buf[a..b] == buf[a..u] + buf[u..h] + buf[h..b];
  }

  /** The first pass at the end of the buffer, its last parts closed. */
  ghost predicate Divides(buf: string, w: Walk, isConnect: bool) {
    && (isConnect ==> w.a == 0) && SchemaEnds(buf, w.a)
    && w.a <= w.b <= w.q <= w.f <= w.g <= |buf| && PathBetween(buf, w.a, w.b, w.q, isConnect)
    && (w.q < w.f ==> buf[w.q] == '?' && QueryBytes(buf, w.q + 1, w.f))
    && (w.f < |buf| ==> w.f < w.g && (w.b < w.q || w.q < w.f))
    && AllHashes(buf, w.f, w.g) && (w.g < |buf| ==> buf[w.g] != '#') && FragmentBytes(buf, w.g, |buf|)
  }

  lemma EndReads(buf: string, w: Walk, isConnect: bool)
    requires UrlRead(buf, |buf|, w, isConnect) && ReqServer <= w.s
    ensures isConnect || w.a > 0 || w.s >= ReqPath
    ensures Divides(buf, Closed(w, |buf|), isConnect)
  {
    hide IsUrlChar, SchemaEnds;
  }

  lemma SchemaWritten(buf: string, a: nat) returns (schema: string)
    requires SchemaEnds(buf, a)
    ensures forall i :: 0 <= i < |schema| ==> IsAlpha(schema[i])
    ensures a <= |buf| && PrintSchema(schema) == buf[..a] && (schema == "" <==> a == 0)
  {
    hide IsAlpha;
    schema := if a == 0 then "" else buf[..a - 3];
    if a > 0 {
      assert buf[..a] == buf[..a - 3] + [buf[a - 3], buf[a - 2], buf[a - 1]];
    }
  }

  /** What is behind the host part. */
  function QueryOf(buf: string, q: nat, f: nat): Option<string>
    requires q <= f <= |buf|
  {
    if q < f then Some(buf[q + 1..f]) else None
  }

  /** The parts between the cuts of the first pass. */
  lemma TextWritten(buf: string, w: Walk, isConnect: bool, schema: string, authority: Option<Authority>)
    requires Divides(buf, w, isConnect) && PrintSchema(schema) == buf[..w.a]
    requires (if authority.Some? then PrintAuthority(authority.value) else "") == buf[w.a..w.b]
    ensures PrintUrl(UrlParts(schema, authority, buf[w.b..w.q], QueryOf(buf, w.q, w.f), w.g - w.f, buf[w.g..])) == buf
  {
    hide PrintUrl, PrintSchema, PrintAuthority, PathBetween, QueryBytes, FragmentBytes, SchemaEnds, Hashes, AllHashes,
      QueryOf, Behind;
    QueryWritten(buf, w.q, w.f);
    HashesWritten(buf, w.f, w.g);
    FiveCuts(buf, w.a, w.b, w.q, w.f, w.g);
    UrlIsFive(UrlParts(schema, authority, buf[w.b..w.q], QueryOf(buf, w.q, w.f), w.g - w.f, buf[w.g..]));
  }

  lemma QueryWritten(buf: string, q: nat, f: nat)
    requires q <= f <= |buf| && (q < f ==> buf[q] == '?')
    ensures Behind("?", QueryOf(buf, q, f)) == buf[q..f]
  {
  }

  lemma HashesWritten(buf: string, f: nat, g: nat)
    requires f <= g <= |buf| && AllHashes(buf, f, g)
    ensures Hashes(g - f) == buf[f..g]
  {
  }

  lemma FiveCuts(buf: string, a: nat, b: nat, q: nat, f: nat, g: nat)
    requires a <= b <= q <= f <= g <= |buf|
    ensures buf[..a] + buf[a..b] + buf[b..q] + buf[q..f] + (buf[f..g] + buf[g..]) == buf
  {
    assert buf[..a] + buf[a..b] == buf[..b];
    assert buf[..b] + buf[b..q] == buf[..q];
    assert buf[..q] + buf[q..f] == buf[..f];
    assert buf[f..g] + buf[g..] == buf[f..];
  }

  /** They are legal, but for what CONNECT demands. */
  lemma TailLegal(buf: string, w: Walk, isConnect: bool)
    requires Divides(buf, w, isConnect)
    ensures var (path, query, fragment) := (buf[w.b..w.q], QueryOf(buf, w.q, w.f), buf[w.g..]);
            && (forall i :: 0 <= i < |path| ==> IsUrlChar(path[i]))
            && (query.Some? ==>
                  forall i :: 0 <= i < |query.value| ==> IsUrlChar(query.value[i]) || query.value[i] == '?')
            && (fragment != "" ==> w.g - w.f > 0 && fragment[0] != '#')
            && (forall i :: 0 <= i < |fragment| ==> IsUrlChar(fragment[i]) || fragment[i] == '?' || fragment[i] == '#')
            && (w.g - w.f > 0 ==> path != "" || query.Some?)
            && (!isConnect && path != "" ==> path[0] == '/' || (path[0] == '*' && w.a == 0))
            && (!isConnect && w.a == 0 ==> w.b == 0 && path != "")
  {
    hide IsUrlChar, SchemaEnds, AllHashes;
  }

  /** What the splitter's acceptance says of the cuts of its two passes. */
  lemma AcceptedParts(buf: string, isConnect: bool, w: Walk)
    requires Accepts(buf, isConnect) && w == Closed(WalkOver(isConnect, buf), |buf|)
    ensures ReqServer <= w.s && Divides(buf, w, isConnect) && (w.a > 0 ==> w.a < w.b)
    ensures w.a < w.b ==>
              var v := HostOver(w.at, buf, w.a, w.b);
              && HostEnds(v.s) && (v.h < w.b <= |buf| ==> IsPort(buf[v.h + 1..w.b]))
              && (isConnect ==> v.u <= 1 && v.h < w.b)
    ensures isConnect ==> w.a == 0 < w.b == w.q && w.f <= w.q + 1 && w.g == |buf|
  {
    hide WalkOver, HostOver, IsPort, UrlRead, HostEnds, Divides;
    assert buf[..|buf|] == buf;
    WalkReads(isConnect, buf, |buf|);
    EndReads(buf, WalkOver(isConnect, buf), isConnect);
    CutsInOrder(buf, w, isConnect);
  }

  lemma CutsInOrder(buf: string, w: Walk, isConnect: bool)
    requires Divides(buf, w, isConnect)
    ensures w.a <= w.b <= w.q <= w.f <= w.g <= |buf|
  {
  }

  /** Whatever the splitter accepts can be written from legal parts. */
  lemma UrlWritten(buf: string, isConnect: bool) returns (u: UrlParts)
    requires Accepts(buf, isConnect)
    ensures LegalUrl(u, isConnect) && PrintUrl(u) == buf
  {
    hide Accepts, HostOver, LegalAuthority, PrintUrl, PrintSchema, Divides, HostEnds, IsPort, IsAlpha, IsUrlChar,
      Closed;
    var w := Closed(WalkOver(isConnect, buf), |buf|);
    AcceptedParts(buf, isConnect, w);
    CutsInOrder(buf, w, isConnect);
    SchemaIsLegal(buf, w, isConnect);
    var schema := SchemaWritten(buf, w.a);
    TailLegal(buf, w, isConnect);
    var authority: Option<Authority> := None;
    if w.a < w.b {
      var t := AuthorityWritten(w.at, buf, w.a, w.b);
      authority := Some(t);
    }
    hide PrintAuthority;
    u := UrlParts(schema, authority, buf[w.b..w.q], QueryOf(buf, w.q, w.f), w.g - w.f, buf[w.g..]);
    TextWritten(buf, w, isConnect, schema, authority);
  }

  lemma SchemaIsLegal(buf: string, w: Walk, isConnect: bool)
    requires Divides(buf, w, isConnect)
    ensures SchemaEnds(buf, w.a) && (isConnect ==> w.a == 0)
  {
  }

  /** The splitter accepts exactly what can be written from legal parts. */
  lemma AcceptsExactly(buf: string, isConnect: bool)
    ensures Accepts(buf, isConnect) <==> exists u :: LegalUrl(u, isConnect) && PrintUrl(u) == buf
  {
    hide Accepts, LegalUrl, PrintUrl;
    if Accepts(buf, isConnect) {
      var u := UrlWritten(buf, isConnect);
    }
    forall u | LegalUrl(u, isConnect) && PrintUrl(u) == buf ensures Accepts(buf, isConnect) {
      UrlRoundTrip(u, isConnect);
    }
  }
}
