/** The two-pass URL splitter: `http_parser_parse_url` and `http_parse_host`. A successful
    split tiles the whole buffer with the fields and their delimiters.
 */
module HttpUrl {
  import opened HttpTypes
  import opened HttpStep
  import opened HttpBodies

  /** The fields of a URL, numbered as the bits of the field set. */
  type UrlField = f: int | 0 <= f <= 7
  const SCHEMA: UrlField := 0
  const HOST: UrlField := 1
  const PORT: UrlField := 2
  const PATH: UrlField := 3
  const QUERY: UrlField := 4
  const FRAGMENT: UrlField := 5
  const USERINFO: UrlField := 6
  const NO_FIELD: UrlField := 7

  datatype Span = Span(off: nat, len: nat)

  datatype HostState =
    | HostDead | UserinfoStart | Userinfo | HostStart | V6Start | Host | V6 | V6End | ZoneStart | Zone
    | PortStart | Port

  /** http_parse_host_char */
  function HostChar(s: HostState, ch: char): HostState {
    match s
    case UserinfoStart => if ch == '@' then HostStart else if IsUserinfoChar(ch) then Userinfo else HostDead
    case Userinfo => if ch == '@' then HostStart else if IsUserinfoChar(ch) then Userinfo else HostDead
    case HostStart => if ch == '[' then V6Start else if IsHostChar(ch) then Host else HostDead
    case Host => if IsHostChar(ch) then Host else if ch == ':' then PortStart else HostDead
    case V6End => if ch == ':' then PortStart else HostDead
    case V6 =>
      if ch == ']' then V6End else if IsHex(ch) || ch == ':' || ch == '.' then V6
      else if ch == '%' then ZoneStart else HostDead
    case V6Start => if IsHex(ch) || ch == ':' || ch == '.' then V6 else HostDead
    case Zone => if ch == ']' then V6End else if IsZoneChar(ch) then Zone else HostDead
    case ZoneStart => if IsZoneChar(ch) then Zone else HostDead
    case Port => if IsNum(ch) then Port else HostDead
    case PortStart => if IsNum(ch) then Port else HostDead
    case HostDead => HostDead
  }

  predicate IsZoneChar(ch: char) {
    IsAlphaNum(ch) || ch == '%' || ch == '.' || ch == '-' || ch == '_' || ch == '~'
  }

  // ---------------------------------------------------------------- what a split means

  /** Where the parts of a URL end: the schema with "://", the user information with "@",
      the host with its brackets, the port with ":", the path, the query with "?". The
      fragment with its "#"s takes the rest; `g` is where it begins behind them. */
  datatype Layout = Layout(a: nat, u: nat, h: nat, b: nat, q: nat, f: nat, g: nat)

  ghost predicate AllHashes(buf: string, from: nat, to: nat)
    requires from <= to <= |buf|
  {
    forall i :: from <= i < to ==> buf[i] == '#'
  }

  ghost predicate SchemaFits(buf: string, fields: set<UrlField>, data: seq<Span>, a: nat)
    requires |data| == 7
  {
    if SCHEMA in fields then
      3 < a <= |buf| && data[SCHEMA] == Span(0, a - 3) && buf[a - 3] == ':' && buf[a - 2] == '/' && buf[a - 1] == '/'
    else a == 0
  }

  ghost predicate UserinfoFits(buf: string, fields: set<UrlField>, data: seq<Span>, a: nat, u: nat)
    requires |data| == 7
  {
    if USERINFO in fields then a + 1 < u <= |buf| && data[USERINFO] == Span(a, u - a - 1) && buf[u - 1] == '@'
    else u == a || (u == a + 1 <= |buf| && buf[a] == '@')
  }

  ghost predicate HostFits(buf: string, data: seq<Span>, u: nat, h: nat)
    requires |data| == 7
  {
    || (u < h <= |buf| && data[HOST] == Span(u, h - u) && buf[u] != '[')
    || (u + 2 < h <= |buf| && data[HOST] == Span(u + 1, h - u - 2) && buf[u] == '[' && buf[h - 1] == ']')
  }

  ghost predicate PortFits(buf: string, fields: set<UrlField>, data: seq<Span>, h: nat, b: nat)
    requires |data| == 7
  {
    if PORT in fields then
      h + 1 < b <= |buf| && data[PORT] == Span(h + 1, b - h - 1) && buf[h] == ':'
      && forall i :: h < i < b ==> IsNum(buf[i])
    else b == h
  }

  ghost predicate PathFits(buf: string, fields: set<UrlField>, data: seq<Span>, b: nat, q: nat)
    requires |data| == 7
  {
    if PATH in fields then b < q <= |buf| && data[PATH] == Span(b, q - b) else q == b
  }

  ghost predicate QueryFits(buf: string, fields: set<UrlField>, data: seq<Span>, q: nat, f: nat)
    requires |data| == 7
  {
    if QUERY in fields then q + 1 < f <= |buf| && data[QUERY] == Span(q + 1, f - q - 1) && buf[q] == '?'
    else f == q || (f == q + 1 <= |buf| && buf[q] == '?')
  }

  ghost predicate FragmentFits(buf: string, fields: set<UrlField>, data: seq<Span>, f: nat, g: nat, n: nat)
    requires |data| == 7
  {
    && f <= g <= n <= |buf| && AllHashes(buf, f, g)
    && if FRAGMENT in fields then f < g < n && data[FRAGMENT] == Span(g, n - g) else g == n
  }

  /** The fields tile the buffer: they are in order and not empty, and every byte outside
      of them is the delimiter that belongs there. */
  ghost predicate Tiles(buf: string, fields: set<UrlField>, data: seq<Span>, l: Layout)
    requires |data| == 7
  {
    && NO_FIELD !in fields
    && SchemaFits(buf, fields, data, l.a)
    && (if HOST in fields then
          UserinfoFits(buf, fields, data, l.a, l.u) && HostFits(buf, data, l.u, l.h)
              && PortFits(buf, fields, data, l.h, l.b)
        else l.a == l.u == l.h == l.b == 0 && USERINFO !in fields && PORT !in fields)
    && PathFits(buf, fields, data, l.b, l.q)
    && QueryFits(buf, fields, data, l.q, l.f)
    && FragmentFits(buf, fields, data, l.f, l.g, |buf|)
  }

  // ---------------------------------------------------------------- the two passes, as folds

  /** How far the first pass has come: its state, whether it met an '@', and where the
      schema, the host part, the path, the query and the "#"s ended. */
  datatype Walk = Walk(s: State, at: bool, a: nat, b: nat, q: nat, f: nat, g: nat)

  function NextWalk(w: Walk, ch: char, k: nat): Walk {
    var s := UrlChar(w.s, ch);
    Walk(s, w.at || s == ReqServerWithAt,
         if s == ReqServerStart then k + 1 else w.a,
         if w.s <= ReqServerWithAt && (s == ReqPath || s == ReqQueryStringStart) then k else w.b,
         if s == ReqQueryStringStart || (w.s == ReqPath && s == ReqFragmentStart) then k else w.q,
         if w.s != ReqFragmentStart && s == ReqFragmentStart then k else w.f,
         if s == ReqFragmentStart then k + 1 else w.g)
  }

  function WalkStart(isConnect: bool): Walk {
    Walk(if isConnect then ReqServerStart else ReqSpacesBeforeUrl, false, 0, 0, 0, 0, 0)
  }

  function WalkOver(isConnect: bool, text: string): Walk {
    if text == "" then WalkStart(isConnect)
    else NextWalk(WalkOver(isConnect, text[..|text| - 1]), text[|text| - 1], |text| - 1)
  }

  /** The parts still open at the end of the buffer end there. */
  function Closed(w: Walk, n: nat): Walk {
    w.(b := if w.s <= ReqServerWithAt then n else w.b,
       q := if w.s <= ReqPath then n else w.q,
       f := if w.s <= ReqQueryString then n else w.f,
       g := if w.s <= ReqFragmentStart then n else w.g)
  }

  /** How far the second pass has come: where the user information and the host ended. */
  datatype HostWalk = HostWalk(s: HostState, u: nat, h: nat)

  function NextHost(w: HostWalk, ch: char, k: nat): HostWalk {
    var s := HostChar(w.s, ch);
    HostWalk(s, if s == HostStart then k + 1 else w.u, if s == Host || s == V6End then k + 1 else w.h)
  }

  function HostOver(at: bool, buf: string, a: nat, k: nat): HostWalk
    requires a <= k <= |buf|
    decreases k
  {
    if k == a then HostWalk(if at then UserinfoStart else HostStart, a, a)
    else NextHost(HostOver(at, buf, a, k - 1), buf[k - 1], k - 1)
  }

  predicate HostEnds(s: HostState) { s == Host || s == V6End || s == Port }

  /** The layout of a URL: the cuts both passes find. */
  function LayoutOf(buf: string, isConnect: bool): Layout {
    var w := Closed(WalkOver(isConnect, buf), |buf|);
    if w.a < w.b <= |buf| then
      var v := HostOver(w.at, buf, w.a, w.b);
      Layout(w.a, v.u, v.h, w.b, w.q, w.f, w.g)
    else Layout(w.a, w.a, w.a, w.b, w.q, w.f, w.g)
  }

  predicate IsPort(digits: string) { IsDecimal(digits) && Decimal(digits) <= 0xFFFF }

  /** What CONNECT demands of a layout: a host and a port, and behind them at most a "?". */
  predicate ConnectLayout(l: Layout, n: nat) {
    l.a == 0 && l.u <= 1 && l.u < l.h && l.h < l.b && l.q == l.b && l.f <= l.q + 1 && l.g == n
  }

  /** Whether the splitter takes this URL. */
  predicate Accepts(buf: string, isConnect: bool) {
    var w := Closed(WalkOver(isConnect, buf), |buf|);
    var l := LayoutOf(buf, isConnect);
    && ReqServer <= w.s
    && (w.a > 0 ==> w.a < w.b)
    && (w.a < w.b <= |buf| ==>
          HostEnds(HostOver(w.at, buf, w.a, w.b).s) && (l.h < l.b ==> IsPort(buf[l.h + 1..l.b])))
    && (isConnect ==> ConnectLayout(l, |buf|))
  }

  // ---------------------------------------------------------------- the first pass

  /** What the first pass has recorded behind the first k bytes. */
  ghost predicate Walked(buf: string, fields: set<UrlField>, data: seq<Span>, k: nat, w: Walk, isConnect: bool)
    requires k <= |buf| && |data| == 7
  {
    && PORT !in fields && USERINFO !in fields && NO_FIELD !in fields
    && WalkedSchema(buf, fields, data, k, w, isConnect)
    && WalkedHost(fields, data, k, w)
    && WalkedPath(buf, fields, data, k, w)
    && WalkedQuery(buf, fields, data, k, w)
    && WalkedFragment(buf, fields, data, k, w)
  }

  ghost predicate WalkedSchema(buf: string, fields: set<UrlField>, data: seq<Span>, k: nat, w: Walk, isConnect: bool)
    requires k <= |buf| && |data| == 7
  {
    && (isConnect ==> w.s >= ReqServerStart && SCHEMA !in fields && w.a == 0)
    && ReqSpacesBeforeUrl <= w.s <= ReqFragment
    && (w.s == ReqSpacesBeforeUrl ==> k == 0 && SCHEMA !in fields && w.a == 0)
    && (ReqSchema <= w.s <= ReqSchemaSlashSlash ==>
          var n := k - (w.s - ReqSchema);
          n > 0 && SCHEMA in fields && data[SCHEMA] == Span(0, n) && w.a == 0
          && (w.s > ReqSchema ==> buf[n] == ':') && (w.s == ReqSchemaSlashSlash ==> buf[n + 1] == '/'))
    && (w.s >= ReqServerStart ==> w.a <= k && SchemaFits(buf, fields, data, w.a))
  }

  ghost predicate WalkedHost(fields: set<UrlField>, data: seq<Span>, k: nat, w: Walk)
    requires |data| == 7
  {
    && (w.s <= ReqServerStart ==> HOST !in fields && !w.at)
    && (w.s == ReqServerStart ==> w.a == k)
    && (w.s == ReqServer || w.s == ReqServerWithAt ==> HOST in fields && w.a < k && data[HOST] == Span(w.a, k - w.a))
    && (w.s > ReqServerWithAt ==>
          w.a <= w.b <= k && (HOST in fields <==> w.a < w.b) && (HOST in fields ==> data[HOST] == Span(w.a, w.b - w.a)))
  }

  ghost predicate WalkedPath(buf: string, fields: set<UrlField>, data: seq<Span>, k: nat, w: Walk)
    requires |data| == 7
  {
    && (w.s <= ReqServerWithAt ==> PATH !in fields)
    && (w.s == ReqPath ==> PATH in fields && w.b < k && data[PATH] == Span(w.b, k - w.b))
    && (w.s > ReqPath ==> w.b <= w.q <= k && PathFits(buf, fields, data, w.b, w.q))
  }

  ghost predicate WalkedQuery(buf: string, fields: set<UrlField>, data: seq<Span>, k: nat, w: Walk)
    requires k <= |buf| && |data| == 7
  {
    && (w.s <= ReqQueryStringStart ==> QUERY !in fields)
    && (w.s == ReqQueryStringStart ==> k == w.q + 1 && buf[w.q] == '?')
    && (w.s == ReqQueryString ==>
          QUERY in fields && w.q + 1 < k && data[QUERY] == Span(w.q + 1, k - w.q - 1) && buf[w.q] == '?')
    && (w.s > ReqQueryString ==> w.q <= w.f <= k && QueryFits(buf, fields, data, w.q, w.f))
  }

  ghost predicate WalkedFragment(buf: string, fields: set<UrlField>, data: seq<Span>, k: nat, w: Walk)
    requires k <= |buf| && |data| == 7
  {
    && (w.s <= ReqFragmentStart ==> FRAGMENT !in fields)
    && (w.s == ReqFragmentStart ==> w.f < w.g == k && AllHashes(buf, w.f, k))
    && (w.s == ReqFragment ==>
          w.f < w.g < k && AllHashes(buf, w.f, w.g) && FRAGMENT in fields && data[FRAGMENT] == Span(w.g, k - w.g))
  }

  /** The field a byte belongs to, by the state it led to; delimiters belong to none. */
  function FieldOf(s: State): UrlField {
    if s == ReqSchema then SCHEMA
    else if s == ReqServer || s == ReqServerWithAt then HOST
    else if s == ReqPath then PATH
    else if s == ReqQueryString then QUERY
    else if s == ReqFragment then FRAGMENT
    else NO_FIELD
  }

  /** The byte at offset k is put into field uf. */
  function Stretched(data: seq<Span>, uf: UrlField, again: bool, k: nat): seq<Span>
    requires |data| == 7
  {
    if uf == NO_FIELD then data
    else if again then data[uf := Span(data[uf].off, data[uf].len + 1)]
    else data[uf := Span(k, 1)]
  }

  lemma StepSchema(buf: string, fields: set<UrlField>, data: seq<Span>, k: nat, w: Walk, isConnect: bool)
    requires k < |buf| && |data| == 7 && Walked(buf, fields, data, k, w, isConnect)
    requires UrlChar(w.s, buf[k]) != Dead
    ensures var w' := NextWalk(w, buf[k], k);
            var uf := FieldOf(w'.s);
            var fields' := if uf == NO_FIELD then fields else fields + {uf};
            WalkedSchema(buf, fields', Stretched(data, uf, uf in fields, k), k + 1, w', isConnect)
  {
    hide WalkedHost, WalkedPath, WalkedQuery, WalkedFragment;
  }

  lemma StepHost(buf: string, fields: set<UrlField>, data: seq<Span>, k: nat, w: Walk, isConnect: bool)
    requires k < |buf| && |data| == 7 && Walked(buf, fields, data, k, w, isConnect)
    requires UrlChar(w.s, buf[k]) != Dead
    ensures var w' := NextWalk(w, buf[k], k);
            var uf := FieldOf(w'.s);
            var fields' := if uf == NO_FIELD then fields else fields + {uf};
            WalkedHost(fields', Stretched(data, uf, uf in fields, k), k + 1, w')
  {
    hide WalkedPath, WalkedQuery, WalkedFragment;
  }

  lemma StepPath(buf: string, fields: set<UrlField>, data: seq<Span>, k: nat, w: Walk, isConnect: bool)
    requires k < |buf| && |data| == 7 && Walked(buf, fields, data, k, w, isConnect)
    requires UrlChar(w.s, buf[k]) != Dead
    ensures var w' := NextWalk(w, buf[k], k);
            var uf := FieldOf(w'.s);
            var fields' := if uf == NO_FIELD then fields else fields + {uf};
            WalkedPath(buf, fields', Stretched(data, uf, uf in fields, k), k + 1, w')
  {
    hide WalkedSchema, WalkedQuery, WalkedFragment;
  }

  lemma StepQuery(buf: string, fields: set<UrlField>, data: seq<Span>, k: nat, w: Walk, isConnect: bool)
    requires k < |buf| && |data| == 7 && Walked(buf, fields, data, k, w, isConnect)
    requires UrlChar(w.s, buf[k]) != Dead
    ensures var w' := NextWalk(w, buf[k], k);
            var uf := FieldOf(w'.s);
            var fields' := if uf == NO_FIELD then fields else fields + {uf};
            WalkedQuery(buf, fields', Stretched(data, uf, uf in fields, k), k + 1, w')
  {
    hide WalkedSchema, WalkedFragment;
  }

  lemma StepFragment(buf: string, fields: set<UrlField>, data: seq<Span>, k: nat, w: Walk, isConnect: bool)
    requires k < |buf| && |data| == 7 && Walked(buf, fields, data, k, w, isConnect)
    requires UrlChar(w.s, buf[k]) != Dead
    ensures var w' := NextWalk(w, buf[k], k);
            var uf := FieldOf(w'.s);
            var fields' := if uf == NO_FIELD then fields else fields + {uf};
            WalkedFragment(buf, fields', Stretched(data, uf, uf in fields, k), k + 1, w')
  {
    hide WalkedSchema, WalkedHost;
  }

  lemma WalkStep(buf: string, fields: set<UrlField>, data: seq<Span>, k: nat, w: Walk, isConnect: bool)
    requires k < |buf| && |data| == 7 && Walked(buf, fields, data, k, w, isConnect)
    requires UrlChar(w.s, buf[k]) != Dead
    ensures var w' := NextWalk(w, buf[k], k);
            var uf := FieldOf(w'.s);
            Walked(buf, if uf == NO_FIELD then fields else fields + {uf},
                   Stretched(data, uf, uf in fields, k), k + 1, w', isConnect)
  {
    StepSchema(buf, fields, data, k, w, isConnect);
    StepHost(buf, fields, data, k, w, isConnect);
    StepPath(buf, fields, data, k, w, isConnect);
    StepQuery(buf, fields, data, k, w, isConnect);
    StepFragment(buf, fields, data, k, w, isConnect);
    hide WalkedSchema, WalkedHost, WalkedPath, WalkedQuery, WalkedFragment, Stretched, UrlChar, NextWalk;
  }

  /** A field is met again only right behind its own bytes. */
  lemma FieldStays(buf: string, fields: set<UrlField>, data: seq<Span>, k: nat, w: Walk, isConnect: bool)
    requires k < |buf| && |data| == 7 && Walked(buf, fields, data, k, w, isConnect)
    requires UrlChar(w.s, buf[k]) != Dead
    ensures var uf := FieldOf(UrlChar(w.s, buf[k]));
            uf in fields ==> uf == FieldOf(w.s)
  {
    hide SchemaFits, PathFits, QueryFits, AllHashes;
  }

  /** What the first pass leaves to the second: all is divided but the host part. */
  ghost predicate Divided(buf: string, fields: set<UrlField>, data: seq<Span>, w: Walk)
    requires |data| == 7
  {
    && PORT !in fields && USERINFO !in fields && NO_FIELD !in fields
    && SchemaFits(buf, fields, data, w.a)
    && w.a <= w.b <= |buf| && (HOST in fields <==> w.a < w.b)
    && (HOST in fields ==> data[HOST] == Span(w.a, w.b - w.a))
    && PathFits(buf, fields, data, w.b, w.q)
    && QueryFits(buf, fields, data, w.q, w.f)
    && FragmentFits(buf, fields, data, w.f, w.g, |buf|)
  }

  lemma WalkEnds(buf: string, fields: set<UrlField>, data: seq<Span>, w: Walk, isConnect: bool)
    requires buf != "" && |data| == 7 && Walked(buf, fields, data, |buf|, w, isConnect)
    ensures w.s < ReqServer ==> HOST !in fields && SCHEMA in fields
    ensures w.s >= ReqServer ==> Divided(buf, fields, data, Closed(w, |buf|))
  {
  }

  // ---------------------------------------------------------------- the second pass

  /** What the second pass has recorded between a and k. */
  ghost predicate HostWalked(buf: string, fields: set<UrlField>, data: seq<Span>, a: nat, k: nat, v: HostWalk)
    requires a <= k <= |buf| && |data| == 7
  {
    && v.s != HostDead
    && (v.s == UserinfoStart ==> k == a && USERINFO !in fields)
    && (v.s == Userinfo ==> a < k && USERINFO in fields && data[USERINFO] == Span(a, k - a))
    && (v.s != UserinfoStart && v.s != Userinfo ==> UserinfoFits(buf, fields, data, a, v.u))
    && (v.s == HostStart ==> v.u == k)
    && (v.s == V6Start ==> k == v.u + 1 && buf[v.u] == '[')
    && (v.s == Host ==> v.u < k == v.h && data[HOST] == Span(v.u, k - v.u) && buf[v.u] != '[')
    && (v.s == V6 || v.s == ZoneStart || v.s == Zone ==>
          v.u + 1 < k && buf[v.u] == '[' && data[HOST] == Span(v.u + 1, k - v.u - 1))
    && (v.s == V6End ==> k == v.h)
    && (v.s == V6End || v.s == PortStart || v.s == Port ==> HostFits(buf, data, v.u, v.h))
    && (v.s == PortStart ==> k == v.h + 1 && buf[v.h] == ':')
    && (if v.s == Port then v.h + 1 < k && PortFits(buf, fields, data, v.h, k) else PORT !in fields)
    && (v.s == UserinfoStart || v.s == Userinfo || v.s == HostStart || v.s == V6Start ==> data[HOST].len == 0)
  }

  /** The field a byte of the host part belongs to, by the state it led to. */
  function HostFieldOf(s: HostState): UrlField {
    if s == Host || s == V6 || s == ZoneStart || s == Zone then HOST
    else if s == Port then PORT
    else if s == Userinfo then USERINFO
    else NO_FIELD
  }

  /** The byte at offset k of the host part, which led from s to s', is recorded. */
  function HostStretched(data: seq<Span>, s: HostState, s': HostState, k: nat): seq<Span>
    requires |data| == 7
  {
    var uf := HostFieldOf(s');
    if uf == NO_FIELD then data
    else if s == s' || s' == ZoneStart || s' == Zone then data[uf := Span(data[uf].off, data[uf].len + 1)]
    else data[uf := Span(k, if uf == HOST then data[HOST].len + 1 else 1)]
  }

  predicate InUserinfo(s: HostState) { s == UserinfoStart || s == Userinfo }

  lemma HostStepUserinfo(buf: string, fields: set<UrlField>, data: seq<Span>, a: nat, k: nat, v: HostWalk)
    requires a <= k < |buf| && |data| == 7 && HostWalked(buf, fields, data, a, k, v)
    requires HostChar(v.s, buf[k]) != HostDead
    requires InUserinfo(v.s)
    ensures var v' := NextHost(v, buf[k], k);
            var uf := HostFieldOf(v'.s);
            HostWalked(buf, if (uf == PORT || uf == USERINFO) && v.s != v'.s then fields + {uf} else fields,
                       HostStretched(data, v.s, v'.s, k), a, k + 1, v')
  {
    hide IsUserinfoChar, IsHostChar, IsZoneChar, IsHex;
  }

  lemma HostStepHost(buf: string, fields: set<UrlField>, data: seq<Span>, a: nat, k: nat, v: HostWalk)
    requires a <= k < |buf| && |data| == 7 && HostWalked(buf, fields, data, a, k, v)
    requires HostChar(v.s, buf[k]) != HostDead
    requires !InUserinfo(v.s)
    ensures var v' := NextHost(v, buf[k], k);
            var uf := HostFieldOf(v'.s);
            HostWalked(buf, if (uf == PORT || uf == USERINFO) && v.s != v'.s then fields + {uf} else fields,
                       HostStretched(data, v.s, v'.s, k), a, k + 1, v')
  {
    hide IsUserinfoChar, IsHostChar, IsZoneChar, IsHex;
  }

  lemma HostStep(buf: string, fields: set<UrlField>, data: seq<Span>, a: nat, k: nat, v: HostWalk)
    requires a <= k < |buf| && |data| == 7 && HostWalked(buf, fields, data, a, k, v)
    requires HostChar(v.s, buf[k]) != HostDead
    ensures var v' := NextHost(v, buf[k], k);
            var uf := HostFieldOf(v'.s);
            HostWalked(buf, if (uf == PORT || uf == USERINFO) && v.s != v'.s then fields + {uf} else fields,
                       HostStretched(data, v.s, v'.s, k), a, k + 1, v')
  {
    hide HostWalked, HostStretched, HostChar, NextHost;
    if InUserinfo(v.s) {
      HostStepUserinfo(buf, fields, data, a, k, v);
    } else {
      HostStepHost(buf, fields, data, a, k, v);
    }
  }

  lemma HostWalkStarts(buf: string, fields: set<UrlField>, data: seq<Span>, w: Walk)
    requires |data| == 7 && w.a <= |buf| && PORT !in fields && USERINFO !in fields && data[HOST].len == 0
    ensures var v := HostOver(w.at, buf, w.a, w.a);
            v.s == (if w.at then UserinfoStart else HostStart) && HostWalked(buf, fields, data, w.a, w.a, v)
  {
  }

  lemma HostOverNext(at: bool, buf: string, a: nat, k: nat)
    requires a <= k < |buf|
    ensures HostOver(at, buf, a, k + 1) == NextHost(HostOver(at, buf, a, k), buf[k], k)
  {
  }

  lemma HostStretchedOthers(data: seq<Span>, s: HostState, s': HostState, k: nat)
    requires |data| == 7
    ensures |HostStretched(data, s, s', k)| == 7
    ensures forall uf: UrlField ::
              uf < 7 && uf != HOST && uf != PORT && uf != USERINFO ==> HostStretched(data, s, s', k)[uf] == data[uf]
  {
  }

  /** The second pass turns the divided fields into the layout. */
  lemma HostTiles(buf: string, fields: set<UrlField>, data: seq<Span>,
                  fields': set<UrlField>, data': seq<Span>, w: Walk, v: HostWalk)
    requires |data| == |data'| == 7
    requires Divided(buf, fields, data, w) && w.a < w.b
    requires HostWalked(buf, fields', data', w.a, w.b, v) && HostEnds(v.s)
    requires fields' - {PORT, USERINFO} == fields
    requires forall uf: UrlField :: uf < 7 && uf != HOST && uf != PORT && uf != USERINFO ==> data'[uf] == data[uf]
    ensures Tiles(buf, fields', data', Layout(w.a, v.u, v.h, w.b, w.q, w.f, w.g))
  {
    hide AllHashes;
    forall uf | uf != PORT && uf != USERINFO ensures uf in fields' <==> uf in fields {
      assert uf in fields' - {PORT, USERINFO} <==> uf in fields';
    }
    assert HostEnds(v.s) ==> UserinfoFits(buf, fields', data', w.a, v.u) && HostFits(buf, data', v.u, v.h)
                             && PortFits(buf, fields', data', v.h, w.b) by {
      hide SchemaFits, PathFits, QueryFits, FragmentFits;
    }
    hide UserinfoFits, HostFits, PortFits, HostWalked;
  }

  /** http_parser_url */
  class Splitter {
    var fieldSet: set<UrlField>
    var port: nat
    var fieldData: seq<Span>

    /** http_parser_url_init */
    constructor ()
      ensures fieldSet == {} && port == 0 && fieldData == seq(7, _ => Span(0, 0))
    {
      fieldSet := {};
      port := 0;
      fieldData := seq(7, _ => Span(0, 0));
    }

    /** http_parse_host; `ghost w` is where the first pass has left off. */
    method ParseHost(buf: string, foundAt: bool, ghost w: Walk) returns (ok: bool)
      requires |fieldData| == 7 && Divided(buf, fieldSet, fieldData, w) && HOST in fieldSet && foundAt == w.at
      modifies this
      ensures |fieldData| == 7 && port == old(port) && HOST in fieldSet
      ensures ok <==> HostEnds(HostOver(w.at, buf, w.a, w.b).s)
      ensures ok ==> var v := HostOver(w.at, buf, w.a, w.b);
                     Tiles(buf, fieldSet, fieldData, Layout(w.a, v.u, v.h, w.b, w.q, w.f, w.g))
    {
      hide Tiles, SchemaFits, PathFits, QueryFits, FragmentFits, HostChar, HostWalked, HostOver, HostStretched;
      var end := fieldData[HOST].off + fieldData[HOST].len;
      var p := fieldData[HOST].off;
      fieldData := fieldData[HOST := Span(p, 0)];
      var s := if foundAt then UserinfoStart else HostStart;
      ghost var v := HostOver(w.at, buf, w.a, w.a);
      HostWalkStarts(buf, fieldSet, fieldData, w);
      while p < end
        invariant |fieldData| == 7 && port == old(port) && w.a <= p <= end
        invariant v == HostOver(w.at, buf, w.a, p) && s == v.s
        invariant HostWalked(buf, fieldSet, fieldData, w.a, p, v)
        invariant fieldSet - {PORT, USERINFO} == old(fieldSet)
        invariant forall uf: UrlField ::
                    uf < 7 && uf != HOST && uf != PORT && uf != USERINFO ==> fieldData[uf] == old(fieldData)[uf]
      {
        label L:
        var s' := HostChar(s, buf[p]);
        if s' == HostDead {
          HostOverNext(w.at, buf, w.a, p);
          HostStaysDead(w.at, buf, w.a, p + 1, w.b);
          return false;
        }
        HostStep(buf, fieldSet, fieldData, w.a, p, v);
        HostOverNext(w.at, buf, w.a, p);
        RecordHost(s, s', p);
        HostStretchedOthers(old@L(fieldData), s, s', p);
        v := NextHost(v, buf[p], p);
        s := s';
        p := p + 1;
      }
      ok := s == Host || s == V6End || s == Port;
      if ok {
        HostTiles(buf, old(fieldSet), old(fieldData), fieldSet, fieldData, w, v);
      }
    }

    /** The byte at offset p of the host part, which led from s to s', is put into its field. */
    method RecordHost(s: HostState, s': HostState, p: nat)
      requires |fieldData| == 7
      modifies this`fieldSet, this`fieldData
      ensures var uf := HostFieldOf(s');
              fieldSet == if (uf == PORT || uf == USERINFO) && s != s' then old(fieldSet) + {uf} else old(fieldSet)
      ensures fieldData == HostStretched(old(fieldData), s, s', p)
    {
      if s' == Host {
        StretchHost(p, s != Host);
      } else if s' == V6 {
        StretchHost(p, s != V6);
      } else if s' == ZoneStart || s' == Zone {
        StretchHost(p, false);
      } else if s' == Port {
        Stretch(PORT, p, s != Port);
      } else if s' == Userinfo {
        Stretch(USERINFO, p, s != Userinfo);
      }
    }

    method Stretch(uf: UrlField, p: nat, starts: bool)
      requires |fieldData| == 7 && uf < 7
      modifies this`fieldSet, this`fieldData
      ensures fieldSet == if starts then old(fieldSet) + {uf} else old(fieldSet)
      ensures fieldData ==
        old(fieldData)[uf := if starts then Span(p, 1) else Span(old(fieldData)[uf].off, old(fieldData)[uf].len + 1)]
    {
      if starts {
        fieldData := fieldData[uf := Span(p, 0)];
        fieldSet := fieldSet + {uf};
      }
      fieldData := fieldData[uf := Span(fieldData[uf].off, fieldData[uf].len + 1)];
    }

    method StretchHost(p: nat, starts: bool)
      requires |fieldData| == 7
      modifies this`fieldData
      ensures fieldData ==
        old(fieldData)[HOST := Span(if starts then p else old(fieldData)[HOST].off, old(fieldData)[HOST].len + 1)]
    {
      if starts {
        fieldData := fieldData[HOST := Span(p, fieldData[HOST].len)];
      }
      fieldData := fieldData[HOST := Span(fieldData[HOST].off, fieldData[HOST].len + 1)];
    }

    /** http_parser_parse_url; the source stores offsets in 16 bits, which a buffer of this
        length cannot exceed. */
    method ParseUrl(buf: string, isConnect: bool) returns (ok: bool)
      requires |buf| <= 0xFFFF && |fieldData| == 7
      modifies this
      ensures |fieldData| == 7
      ensures ok <==> Accepts(buf, isConnect)
      ensures ok ==> Tiles(buf, fieldSet, fieldData, LayoutOf(buf, isConnect))
      ensures ok && PORT in fieldSet ==>
                var s := fieldData[PORT];
                s.off + s.len <= |buf| && IsPort(buf[s.off..s.off + s.len])
                    && port == Decimal(buf[s.off..s.off + s.len])
      ensures ok && PORT !in fieldSet ==> port == 0
      ensures ok && isConnect ==> fieldSet == {HOST, PORT}
    {
      hide Tiles, Accepts, LayoutOf, Divided, Walked, WalkOver, HostOver, IsPort, Decimal, ConnectLayout, HostEnds;
      if buf == "" {
        RefusesEmpty(isConnect);
        return false;
      }
      ghost var w;
      var foundAt;
      ok, foundAt, w := WalkUrl(buf, isConnect);
      if !ok {
        RefusesDead(buf, isConnect);
        return;
      }
      if SCHEMA in fieldSet && HOST !in fieldSet {
        RefusesLoneSchema(buf, isConnect, fieldSet, fieldData);
        return false;
      }
      WalkEnds(buf, fieldSet, fieldData, w, isConnect);
      if HOST in fieldSet {
        TakesHost(buf, isConnect, fieldSet, fieldData);
        ok := ParseHost(buf, foundAt, Closed(w, |buf|));
        if !ok {
          return;
        }
      } else {
        TakesNoHost(buf, isConnect, fieldSet, fieldData);
      }
      ConnectTiles(buf, fieldSet, fieldData, LayoutOf(buf, isConnect));
      if isConnect && fieldSet != {HOST, PORT} {
        return false;
      }
      if PORT in fieldSet {
        ok := ParsePort(buf);
      }
    }

    /** The first pass. */
    method WalkUrl(buf: string, isConnect: bool) returns (ok: bool, foundAt: bool, ghost w: Walk)
      requires buf != "" && |fieldData| == 7
      modifies this
      ensures |fieldData| == 7 && port == 0
      ensures w == WalkOver(isConnect, buf)
      ensures ok <==> w.s != Dead
      ensures ok ==> foundAt == w.at && Walked(buf, fieldSet, fieldData, |buf|, w, isConnect)
    {
      hide Walked, UrlChar, WalkOver;
      fieldSet, port := {}, 0;
      var s := if isConnect then ReqServerStart else ReqSpacesBeforeUrl;
      var oldUf := NO_FIELD;
      foundAt := false;
      w := WalkStart(isConnect);
      var p := 0;
      WalkStarts(buf, fieldData, isConnect);
      while p < |buf|
        invariant p <= |buf| && |fieldData| == 7 && port == 0
        invariant w == WalkOver(isConnect, buf[..p]) && s == w.s && foundAt == w.at
        invariant Walked(buf, fieldSet, fieldData, p, w, isConnect)
        invariant oldUf == NO_FIELD || oldUf in fieldSet
        invariant s != Dead && (FieldOf(s) == NO_FIELD || FieldOf(s) == oldUf)
      {
        WalkOverNext(isConnect, buf, p);
        s := UrlChar(s, buf[p]);
        if s == Dead {
          WalkStaysDead(isConnect, buf, p + 1);
          w := WalkOver(isConnect, buf);
          return false, foundAt, w;
        }
        FieldStays(buf, fieldSet, fieldData, p, w, isConnect);
        WalkStep(buf, fieldSet, fieldData, p, w, isConnect);
        w := NextWalk(w, buf[p], p);
        if s == ReqServerWithAt {
          foundAt := true;
        }
        var uf := FieldOf(s);
        if uf == NO_FIELD {
          // a delimiter
        } else if uf == oldUf {
          assert fieldSet + {uf} == fieldSet;
          fieldData := fieldData[uf := Span(fieldData[uf].off, fieldData[uf].len + 1)];
        } else {
          fieldData := fieldData[uf := Span(p, 1)];
          fieldSet := fieldSet + {uf};
          oldUf := uf;
        }
        p := p + 1;
      }
      assert buf[..p] == buf;
      ok := true;
    }

    /** The value of the port digits, if it fits 16 bits. */
    method ParsePort(buf: string) returns (ok: bool)
      requires |fieldData| == 7
      requires fieldData[PORT].off + fieldData[PORT].len <= |buf| && fieldData[PORT].len > 0
      requires forall i :: fieldData[PORT].off <= i < fieldData[PORT].off + fieldData[PORT].len ==> IsNum(buf[i])
      modifies this`port
      ensures var digits := buf[fieldData[PORT].off..fieldData[PORT].off + fieldData[PORT].len];
              IsDecimal(digits) && (ok <==> IsPort(digits)) && (ok ==> port == Decimal(digits))
    {
      var p, end := fieldData[PORT].off, fieldData[PORT].off + fieldData[PORT].len;
      ghost var off, digits := p, buf[p..end];
      var v := 0;
      while p < end
        invariant off <= p <= end && v <= 0xFFFF
        invariant v == Decimal(digits[..p - off])
      {
        v := v * 10;
        v := v + Digit(buf[p]);
        DecimalNext(digits, p - off);
        p := p + 1;
        if v > 0xFFFF {
          DecimalGrows(digits, p - off);
          return false;
        }
      }
      assert digits[..p - off] == digits;
      port := v;
      ok := true;
    }
  }

  lemma {:induction false} HostStaysDead(at: bool, buf: string, a: nat, k: nat, end: nat)
    requires a <= k <= end <= |buf| && HostOver(at, buf, a, k).s == HostDead
    ensures HostOver(at, buf, a, end).s == HostDead
    decreases end
  {
    if k < end {
      HostStaysDead(at, buf, a, k, end - 1);
    }
  }

  lemma RefusesEmpty(isConnect: bool)
    ensures !Accepts("", isConnect)
  {
  }

  lemma RefusesDead(buf: string, isConnect: bool)
    requires WalkOver(isConnect, buf).s == Dead
    ensures !Accepts(buf, isConnect)
  {
    hide WalkOver;
  }

  lemma RefusesLoneSchema(buf: string, isConnect: bool, fields: set<UrlField>, data: seq<Span>)
    requires buf != "" && |data| == 7 && Walked(buf, fields, data, |buf|, WalkOver(isConnect, buf), isConnect)
    requires SCHEMA in fields && HOST !in fields
    ensures !Accepts(buf, isConnect)
  {
    hide WalkOver, Walked;
    WalkEnds(buf, fields, data, WalkOver(isConnect, buf), isConnect);
  }

  lemma TakesHost(buf: string, isConnect: bool, fields: set<UrlField>, data: seq<Span>)
    requires |data| == 7 && HOST in fields
    requires WalkOver(isConnect, buf).s >= ReqServer
             && Divided(buf, fields, data, Closed(WalkOver(isConnect, buf), |buf|))
    ensures var w := Closed(WalkOver(isConnect, buf), |buf|);
            var v := HostOver(w.at, buf, w.a, w.b);
            var l := Layout(w.a, v.u, v.h, w.b, w.q, w.f, w.g);
            && w.a < w.b && LayoutOf(buf, isConnect) == l
            && (Accepts(buf, isConnect) <==>
                  && HostEnds(v.s) && (l.h < l.b ==> IsPort(buf[l.h + 1..l.b]))
                  && (isConnect ==> ConnectLayout(l, |buf|)))
  {
    hide WalkOver, HostOver;
  }

  lemma TakesNoHost(buf: string, isConnect: bool, fields: set<UrlField>, data: seq<Span>)
    requires |data| == 7 && HOST !in fields && SCHEMA !in fields
    requires WalkOver(isConnect, buf).s >= ReqServer
             && Divided(buf, fields, data, Closed(WalkOver(isConnect, buf), |buf|))
    ensures Tiles(buf, fields, data, LayoutOf(buf, isConnect)) && PORT !in fields
    ensures Accepts(buf, isConnect) <==> !isConnect
  {
    hide WalkOver, HostOver, PathFits, QueryFits, FragmentFits;
  }

  /** A tiling says which fields are there. */
  lemma ConnectTiles(buf: string, fields: set<UrlField>, data: seq<Span>, l: Layout)
    requires |data| == 7 && Tiles(buf, fields, data, l)
    ensures HOST in fields ==> (fields == {HOST, PORT} <==> ConnectLayout(l, |buf|))
    ensures HOST in fields ==> (PORT in fields <==> l.h < l.b)
    ensures PORT in fields ==> data[PORT] == Span(l.h + 1, l.b - l.h - 1) && 0 < data[PORT].len && l.b <= |buf|
    ensures PORT in fields ==> forall i :: l.h < i < l.b ==> IsNum(buf[i])
  {
    if ConnectLayout(l, |buf|) && HOST in fields {
      forall uf: UrlField ensures uf in fields <==> uf in {HOST, PORT} {
      }
    }
  }

  lemma DecimalNext(digits: string, k: nat)
    requires k < |digits| && forall i :: 0 <= i < |digits| ==> IsNum(digits[i])
    ensures Decimal(digits[..k + 1]) == Decimal(digits[..k]) * 10 + Digit(digits[k])
  {
    assert digits[..k + 1][..k] == digits[..k];
  }

  lemma {:induction false} DecimalGrows(digits: string, k: nat)
    requires k <= |digits| && forall i :: 0 <= i < |digits| ==> IsNum(digits[i])
    ensures Decimal(digits[..k]) <= Decimal(digits)
  {
    if k == |digits| {
      assert digits[..k] == digits;
    } else {
      DecimalGrows(digits[..|digits| - 1], k);
      assert digits[..|digits| - 1][..k] == digits[..k];
    }
  }

  lemma WalkStarts(buf: string, data: seq<Span>, isConnect: bool)
    requires |data| == 7
    ensures WalkOver(isConnect, buf[..0]) == WalkStart(isConnect)
    ensures Walked(buf, {}, data, 0, WalkStart(isConnect), isConnect)
  {
  }

  lemma WalkOverNext(isConnect: bool, buf: string, k: nat)
    requires k < |buf|
    ensures WalkOver(isConnect, buf[..k + 1]) == NextWalk(WalkOver(isConnect, buf[..k]), buf[k], k)
  {
    assert buf[..k + 1][..k] == buf[..k];
  }

  lemma {:induction false} WalkStaysDead(isConnect: bool, buf: string, k: nat)
    requires k <= |buf| && WalkOver(isConnect, buf[..k]).s == Dead
    ensures WalkOver(isConnect, buf).s == Dead
    decreases |buf| - k
  {
    if k < |buf| {
      WalkOverNext(isConnect, buf, k);
      WalkStaysDead(isConnect, buf, k + 1);
    } else {
      assert buf[..k] == buf;
    }
  }
}
