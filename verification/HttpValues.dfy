/** Header values: what the incremental matchers know after a whole value, as a lookup in
    its text.
 */
module HttpValues {
  import opened HttpTypes
  import opened HttpStep
  import opened HttpAgree
  import opened HttpReads

  /** A value without white space in front, or none at all. Its first byte is not looked at further. */
  predicate IsValue(v: string) {
    && (v != "" ==> v[0] != ' ' && v[0] != '\t' && v[0] != CR && v[0] != LF)
    && forall i :: 1 <= i < |v| ==> InsideValue(v[i])
  }

  /** The header states in which a value may have any character. */
  predicate TakesAny(hs: HeaderState) {
    hs != ContentLengthName && hs != ContentLengthNum && hs != ContentLengthWs
  }

  /** What the matchers know after a whole value. */
  function ValueRead(s: ValueState, v: string): (r: ValueState)
    requires v != "" && TakesAny(s.hs)
    ensures TakesAny(r.hs)
  {
    var n := |v| - 1;
    if n == 0 then FirstStep(s, v[0]) else NextStep(ValueRead(s, v[..n]), v[n])
  }

  function FirstStep(s: ValueState, ch: char): (r: ValueState)
    requires TakesAny(s.hs)
    ensures TakesAny(r.hs) && ValueStart(s.(index := 0), ch) == Fine(r)
  {
    ValueStart(s.(index := 0), ch).v
  }

  function NextStep(s: ValueState, ch: char): (r: ValueState)
    requires TakesAny(s.hs)
    ensures TakesAny(r.hs) && ValueStep(s, ch) == Fine(r)
  {
    ValueStep(s, ch).v
  }

  lemma StepOfValue(cfg: Settings, p: Parser, ch: char)
    requires InValue(p.f.state)
    ensures Step(cfg, p, ch) == StepHeaderValue(p.f, ch)
  {
  }

  /** The parser after a value. */
  function AfterValue(p: Parser, v: string): Parser
    requires v != "" && TakesAny(p.f.headerState)
  {
    Parser(WithValue(p.f, ValueRead(ValueOf(p.f), v)).(state := HeaderValue, nread := p.f.nread + |v|),
           Emit(p.trace, Data(Value, v)))
  }

  /** Any value but a length is read. */
  lemma {:induction false} ValueReads(cfg: Settings, p: Parser, v: string)
    requires p.f.state == HeaderValueDiscardWs && Room(cfg, p, |v|) && v != "" && IsValue(v)
             && TakesAny(p.f.headerState)
    ensures Reads(cfg, p, v, AfterValue(p, v))
  {
    hide Run, Step, Emit, Reads, AfterValue;
    var n := |v| - 1;
    var u, ch := v[..n], v[n];
    assert v == u + [ch];
    if n == 0 {
      assert v == [ch];
      FirstReads(cfg, p, ch);
    } else {
      assert u[0] == v[0];
      ValueReads(cfg, p, u);
      NextReads(cfg, p, u, ch);
    }
  }

  lemma FirstReads(cfg: Settings, p: Parser, ch: char)
    requires p.f.state == HeaderValueDiscardWs && Room(cfg, p, 1) && ch != ' ' && ch != '\t' && ch != CR && ch != LF
    requires TakesAny(p.f.headerState)
    ensures Reads(cfg, p, [ch], AfterValue(p, [ch]))
  {
    hide Run, Step, Emit, ValueStart;
    ReadsNothing(cfg, p);
    StepOfValue(cfg, Counted(p), ch);
    assert "" + [ch] == [ch];
    assert ValueRead(ValueOf(p.f), [ch]) == FirstStep(ValueOf(Counted(p).f), ch);
    ReadsByte(cfg, p, "", p, ch);
  }

  lemma NextReads(cfg: Settings, p: Parser, u: string, ch: char)
    requires u != "" && Room(cfg, p, |u| + 1) && InsideValue(ch) && TakesAny(p.f.headerState)
    requires Reads(cfg, p, u, AfterValue(p, u))
    ensures Reads(cfg, p, u + [ch], AfterValue(p, u + [ch]))
  {
    hide Run, Step, Emit, ValueStep;
    var q := AfterValue(p, u);
    assert (u + [ch])[..|u|] == u;
    StepOfValue(cfg, Counted(q), ch);
    assert ValueOf(Counted(q).f) == ValueRead(ValueOf(p.f), u);
    assert ValueRead(ValueOf(p.f), u + [ch]) == NextStep(ValueOf(Counted(q).f), ch);
    ReadsByte(cfg, p, u, q, ch);
    EmitTwice(p.trace, Value, u, [ch]);
  }

  // ---------------------------------------------------------------- values nobody looks into

  /** The header states of names that no value is looked into for. */
  predicate LooksInto(hs: HeaderState) {
    || hs == ConnectionName || hs == ContentLengthName || hs == TransferEncodingName || hs == UpgradeName
    || hs == ContentLengthWs || hs == TokenStart
  }

  lemma {:induction false} PlainValue(s: ValueState, v: string)
    requires v != "" && TakesAny(s.hs) && !LooksInto(s.hs)
    ensures ValueRead(s, v) == s.(hs := General, index := 0)
  {
    var n := |v| - 1;
    if n > 0 {
      PlainValue(s, v[..n]);
    }
  }

  /** An Upgrade header sets its flag whatever its value. */
  lemma {:induction false} UpgradeRead(s: ValueState, v: string)
    requires v != "" && s.hs == UpgradeName
    ensures ValueRead(s, v) == s.(hs := General, index := 0, flags := s.flags + {Upgrade})
  {
    var n := |v| - 1;
    if n > 0 {
      UpgradeRead(s, v[..n]);
    }
  }

  // ---------------------------------------------------------------- Transfer-Encoding

  const CHUNKED := "chunked"

  /** `v` is `word` but for the case of its letters. */
  predicate SameText(v: string, word: string) {
    |v| == |word| && forall i :: 0 <= i < |v| ==> Lower(v[i]) == word[i]
  }

  predicate Blank(v: string) { forall i :: 0 <= i < |v| ==> v[i] == ' ' }

  /** `v` is `word`, in any case, and spaces. */
  predicate IsWord(v: string, word: string) {
    |word| <= |v| && SameText(v[..|word|], word) && Blank(v[|word|..])
  }

  /** `v` is the beginning of `word`, in any case, but not all of it. */
  predicate BeginsWord(v: string, word: string) {
    0 < |v| < |word| && SameText(v, word[..|v|])
  }

  /** What the matcher of `word` knows after `v`. */
  predicate WordRead(s: ValueState, v: string, word: string,
                     here: HeaderState, done: HeaderState, otherwise: HeaderState)
  {
    if BeginsWord(v, word) then s.hs == here && s.index == |v| - 1
    else if IsWord(v, word) then s.hs == done && s.index == |word| - 1
    else s.hs == otherwise
  }

  /** One more character of a text that may be `word`. */
  lemma WordGrows(v: string, ch: char, word: string)
    requires v != "" && |word| > 1
    ensures BeginsWord(v + [ch], word) <==> BeginsWord(v, word) && |v| + 1 < |word| && Lower(ch) == word[|v|]
    ensures IsWord(v + [ch], word) <==>
              || (BeginsWord(v, word) && |v| + 1 == |word| && Lower(ch) == word[|v|])
              || (IsWord(v, word) && ch == ' ')
  {
    hide Lower;
    var w, n := v + [ch], |v|;
    if n + 1 <= |word| {
      SameTextGrows(v, ch, word[..n + 1]);
      assert word[..n + 1][..n] == word[..n];
    }
    if n + 1 == |word| {
      assert w[..|word|] == w && word[..n + 1] == word && w[|word|..] == "";
      assert !IsWord(v, word);
    } else if |word| <= n {
      assert w[..|word|] == v[..|word|] && w[|word|..] == v[|word|..] + [ch];
      assert Blank(w[|word|..]) <==> Blank(v[|word|..]) && ch == ' ' by { BlankGrows(v[|word|..], ch); }
    }
  }

  lemma BlankGrows(v: string, ch: char)
    ensures Blank(v + [ch]) <==> Blank(v) && ch == ' '
  {
    assert forall i :: 0 <= i < |v| ==> (v + [ch])[i] == v[i];
    assert (v + [ch])[|v|] == ch;
  }

  lemma SameTextGrows(v: string, ch: char, word: string)
    requires |word| == |v| + 1
    ensures SameText(v + [ch], word) <==> SameText(v, word[..|v|]) && Lower(ch) == word[|v|]
  {
    hide Lower;
    assert forall i :: 0 <= i < |v| ==> (v + [ch])[i] == v[i];
    assert (v + [ch])[|v|] == ch;
  }

  /** A Transfer-Encoding value is taken for chunked exactly if it is the word "chunked", in any
      case, and spaces. */
  lemma {:induction false} CodingLookup(s: ValueState, v: string)
    requires s.hs == TransferEncodingName && v != ""
    ensures WordRead(ValueRead(s, v), v, CHUNKED, MatchingChunked, ChunkedValue, General)
    ensures var r := ValueRead(s, v); r.flags == s.flags && r.contentLength == s.contentLength
  {
    hide Lower, BeginsWord, IsWord, NextStep;
    var n := |v| - 1;
    var u, ch := v[..n], v[n];
    assert v == u + [ch];
    if n == 0 {
      assert v == [ch];
      WordFirst(ch, CHUNKED);
    } else {
      CodingLookup(s, u);
      hide WordRead;
      CodingStep(ValueRead(s, u), u, ch);
    }
  }

  lemma CodingStep(r: ValueState, u: string, ch: char)
    requires u != "" && WordRead(r, u, CHUNKED, MatchingChunked, ChunkedValue, General)
    ensures var w := NextStep(r, ch);
            && WordRead(w, u + [ch], CHUNKED, MatchingChunked, ChunkedValue, General)
            && w.flags == r.flags && w.contentLength == r.contentLength
  {
    hide Lower, BeginsWord, IsWord;
    WordGrows(u, ch, CHUNKED);
    WordBounds(u, CHUNKED);
  }

  lemma WordFirst(ch: char, word: string)
    requires |word| > 1
    ensures BeginsWord([ch], word) <==> Lower(ch) == word[0]
    ensures !IsWord([ch], word)
  {
  }

  lemma WordBounds(v: string, word: string)
    ensures BeginsWord(v, word) ==> |v| < |word|
    ensures IsWord(v, word) ==> |word| <= |v|
  {
  }

  // ---------------------------------------------------------------- Connection

  const KEEP_ALIVE := "keep-alive"
  const CLOSE := "close"
  const UPGRADING := "upgrade"

  function Trim(u: string): string { if u != "" && u[0] == ' ' then Trim(u[1..]) else u }

  /** `u` may still become one of the known tokens. */
  predicate BeginsToken(u: string) {
    BeginsWord(u, KEEP_ALIVE) || BeginsWord(u, CLOSE) || BeginsWord(u, UPGRADING)
  }

  /** A comma behind `u` ends that item. Behind the mere beginning of a known token it does
      not: there the matcher takes the comma for one more character. */
  predicate Ends(u: string) { Trim(u) != "" && !BeginsToken(Trim(u)) }

  /** The items of a list, as the matchers see them. */
  function Items(v: string): (items: seq<string>)
    ensures items != []
  {
    if v == "" then [""] else OneMore(Items(v[..|v| - 1]), v[|v| - 1])
  }

  function OneMore(items: seq<string>, ch: char): (more: seq<string>)
    requires items != []
    ensures more != []
  {
    var k := |items| - 1;
    if ch == ',' && Ends(items[k]) then items + [""] else items[..k] + [items[k] + [ch]]
  }

  /** An item that does not begin like a token: behind it nothing is recognised. */
  predicate Derails(u: string) { Trim(u) != "" && TokenChar(Lower(Trim(u)[0])) == '\0' }

  predicate Derailed(items: seq<string>) { exists i :: 1 <= i < |items| && Derails(items[i]) }

  function ItemFlag(u: string): set<Flag> {
    if IsWord(Trim(u), KEEP_ALIVE) then {KeepAlive}
    else if IsWord(Trim(u), CLOSE) then {Close}
    else if IsWord(Trim(u), UPGRADING) then {ConnectionUpgrade}
    else {}
  }

  /** The flags of the items up to the first one that derails. */
  function ListFlags(items: seq<string>): set<Flag> {
    if items == [] then {}
    else
      var front := items[..|items| - 1];
      ListFlags(front) + if Derailed(front) then {} else ItemFlag(items[|items| - 1])
  }

  /** What the matchers know after an item without the space in front. */
  function ItemState(u: string): HeaderState {
    if u == "" then TokenStart
    else if BeginsWord(u, KEEP_ALIVE) then MatchingKeepAlive
    else if IsWord(u, KEEP_ALIVE) then KeepAliveValue
    else if BeginsWord(u, CLOSE) then MatchingClose
    else if IsWord(u, CLOSE) then CloseValue
    else if BeginsWord(u, UPGRADING) then MatchingConnectionUpgrade
    else if IsWord(u, UPGRADING) then UpgradeValue
    else Token
  }

  predicate ItemRead(r: ValueState, u: string) {
    && r.hs == ItemState(u)
    && (u == "" ==> r.index == 0)
    && (BeginsToken(u) ==> r.index == |u| - 1)
  }

  /** What is known after the items, the last of which may go on. */
  predicate ListRead(s: ValueState, r: ValueState, items: seq<string>)
    requires items != []
  {
    var k := |items| - 1;
    && r.contentLength == s.contentLength && r.flags == s.flags + ListFlags(items[..k])
    && if Derailed(items) then r.hs == General else ItemRead(r, Trim(items[k]))
  }

  lemma TrimGrows(u: string, ch: char)
    ensures Trim(u + [ch]) == if Trim(u) != "" then Trim(u) + [ch] else if ch == ' ' then "" else [ch]
  {
    if u == "" {
      assert u + [ch] == [ch];
    } else {
      assert (u + [ch])[1..] == u[1..] + [ch];
    }
  }

  /** One more character of an item that has begun. */
  lemma ItemGrows(r: ValueState, u: string, ch: char)
    requires u != "" && TakesAny(r.hs) && ItemRead(r, u) && !(ch == ',' && !BeginsToken(u))
    ensures var w := NextStep(r, ch);
            ItemRead(w, u + [ch]) && w.flags == r.flags && w.contentLength == r.contentLength
  {
    hide Lower, BeginsWord, IsWord;
    WordGrows(u, ch, KEEP_ALIVE);
    WordGrows(u, ch, CLOSE);
    WordGrows(u, ch, UPGRADING);
    OneWord(u);
    CommaLowered();
    WordBounds(u, KEEP_ALIVE);
    WordBounds(u, CLOSE);
    WordBounds(u, UPGRADING);
  }

  lemma CommaLowered()
    ensures Lower(',') == ','
  {
  }

  /** A text begins or is at most one of the known tokens, and only in one way. */
  lemma OneWord(u: string)
    requires u != ""
    ensures BeginsWord(u, KEEP_ALIVE) || IsWord(u, KEEP_ALIVE) ==> Lower(u[0]) == 'k'
    ensures BeginsWord(u, CLOSE) || IsWord(u, CLOSE) ==> Lower(u[0]) == 'c'
    ensures BeginsWord(u, UPGRADING) || IsWord(u, UPGRADING) ==> Lower(u[0]) == 'u'
  {
    hide Lower;
  }

  /** The first character of an item. */
  lemma ItemBegins(r: ValueState, ch: char)
    requires r.hs == TokenStart && r.index == 0 && TokenChar(Lower(ch)) != '\0'
    ensures ItemRead(NextStep(r, ch), [ch])
  {
    hide Lower, IsWord, BeginsWord;
    WordFirst(ch, KEEP_ALIVE);
    WordFirst(ch, CLOSE);
    WordFirst(ch, UPGRADING);
  }

  /** A comma ends an item and sets its flag. */
  lemma ItemEnds(r: ValueState, u: string)
    requires u != "" && TakesAny(r.hs) && ItemRead(r, u) && !BeginsToken(u)
    ensures var w := NextStep(r, ',');
            w.hs == TokenStart && w.index == 0 && w.contentLength == r.contentLength
            && w.flags == r.flags + TokenFlag(ItemState(u))
  {
    hide BeginsWord, IsWord;
    assert r.flags + {} == r.flags;
  }

  /** An item that derails is no known token and stays derailed. */
  lemma DerailsStays(u: string, ch: char)
    requires Derails(u)
    ensures Derails(u + [ch]) && ItemFlag(u) == {}
  {
    hide Lower, IsWord;
    TrimGrows(u, ch);
    OneWord(Trim(u));
    KnownLetters();
  }

  lemma KnownLetters()
    ensures TokenChar('k') != '\0' && TokenChar('c') != '\0' && TokenChar('u') != '\0'
  {
  }

  lemma DerailedStays(items: seq<string>, ch: char)
    requires Derailed(items)
    ensures Derailed(OneMore(items, ch))
  {
    hide Derails, Ends;
    var k, more := |items| - 1, OneMore(items, ch);
    var i :| 1 <= i < |items| && Derails(items[i]);
    DerailsStays(items[i], ch);
    assert more[i] == if i < k || |more| > |items| then items[i] else items[i] + [ch];
    assert Derails(more[i]);
  }

  /** The last item of a derailed list sets no flag. */
  lemma DerailedFlags(items: seq<string>)
    requires Derailed(items)
    ensures ListFlags(items) == ListFlags(items[..|items| - 1])
  {
    hide Derails, ItemFlag;
    var k := |items| - 1;
    var i :| 1 <= i < |items| && Derails(items[i]);
    DerailsStays(items[i], ' ');
    if i < k {
      assert items[..k][i] == items[i];
    }
    assert ListFlags(items[..k]) + {} == ListFlags(items[..k]);
  }

  /** A list that has not derailed derails only if its last item does. */
  lemma DerailsLast(items: seq<string>, ch: char)
    requires items != [] && !Derailed(items)
    ensures var more := OneMore(items, ch);
            Derailed(more) <==> |more| > 1 && Derails(more[|more| - 1])
    ensures !Derailed(items[..|items| - 1])
  {
    hide Derails, Ends;
    var k, more := |items| - 1, OneMore(items, ch);
    forall i | 1 <= i < k ensures !Derails(items[..k][i]) && !Derails(more[i]) {
      assert items[..k][i] == items[i];
    }
    if |more| > |items| {
      assert k >= 1 ==> !Derails(more[k]) by { assert more[k] == items[k]; }
    }
    if |more| > 1 && Derails(more[|more| - 1]) {
      assert Derailed(more);
    }
  }

  lemma FlagOfState(u: string)
    requires Trim(u) != "" && !BeginsToken(Trim(u))
    ensures TokenFlag(ItemState(Trim(u))) == ItemFlag(u)
  {
    hide BeginsWord, IsWord, Trim;
  }

  /** One more character of the list. */
  lemma ListStep(s: ValueState, r: ValueState, items: seq<string>, ch: char)
    requires items != [] && ListRead(s, r, items) && TakesAny(r.hs) && InsideValue(ch)
    requires |items| == 1 ==> Trim(items[0]) != ""
    ensures ListRead(s, NextStep(r, ch), OneMore(items, ch))
    ensures |OneMore(items, ch)| == 1 ==> Trim(OneMore(items, ch)[0]) != ""
  {
    hide Lower, ListFlags, ItemFlag, ItemState, BeginsWord, IsWord, Derailed, Derails, ItemRead, Trim, ValueStep;
    var k := |items| - 1;
    var u, more := items[k], OneMore(items, ch);
    TrimGrows(u, ch);
    if ch == ',' && Ends(u) {
      assert more[..k + 1] == items && more[k + 1] == "";
      if Derailed(items) {
        DerailedStays(items, ch);
        DerailedFlags(items);
        GeneralStays(r, ch);
      } else {
        DerailsLast(items, ch);
        ItemEnds(r, Trim(u));
        FlagOfState(u);
        ListFlagsLast(items);
        NoItem(NextStep(r, ch));
      }
    } else {
      assert more[..k] == items[..k] && more[k] == u + [ch];
      if Derailed(items) {
        DerailedStays(items, ch);
        GeneralStays(r, ch);
      } else {
        DerailsLast(items, ch);
        if Trim(u) != "" {
          ItemGrows(r, Trim(u), ch);
          NoDerail(items, ch);
        } else {
          ItemOpens(r, ch);
          FirstDerails(u, ch);
        }
      }
    }
  }

  lemma GeneralStays(r: ValueState, ch: char)
    requires r.hs == General
    ensures NextStep(r, ch) == r
  {
  }

  lemma ListFlagsLast(items: seq<string>)
    requires items != [] && !Derailed(items[..|items| - 1])
    ensures ListFlags(items) == ListFlags(items[..|items| - 1]) + ItemFlag(items[|items| - 1])
  {
  }

  lemma NoItem(r: ValueState)
    requires r.hs == TokenStart && r.index == 0
    ensures ItemRead(r, Trim("")) && !Derails("")
  {
  }

  /** An item that has begun well goes on well. */
  lemma NoDerail(items: seq<string>, ch: char)
    requires items != [] && !Derailed(items) && Trim(items[|items| - 1]) != ""
    ensures |items| > 1 ==> !Derails(items[|items| - 1] + [ch])
  {
    hide Lower;
    TrimGrows(items[|items| - 1], ch);
  }

  /** The first character of an item, or a space in front of it. */
  lemma ItemOpens(r: ValueState, ch: char)
    requires TakesAny(r.hs) && ItemRead(r, "") && InsideValue(ch)
    ensures var w := NextStep(r, ch);
            && w.flags == r.flags && w.contentLength == r.contentLength
            && if ch == ' ' then ItemRead(w, "")
               else if TokenChar(Lower(ch)) != '\0' then ItemRead(w, [ch])
               else w.hs == General
  {
    hide IsWord;
    assert ItemState("") == TokenStart && !BeginsToken("");
    if ch != ' ' && TokenChar(Lower(ch)) != '\0' {
      ItemBegins(r, ch);
    }
  }

  lemma FirstDerails(u: string, ch: char)
    requires Trim(u) == ""
    ensures Derails(u + [ch]) <==> ch != ' ' && TokenChar(Lower(ch)) == '\0'
  {
    hide Lower;
    TrimGrows(u, ch);
  }

  /** The value of a Connection header: the flags set in the end are those of its items. */
  lemma ConnectionLookup(s: ValueState, v: string)
    requires s.hs == ConnectionName && v != "" && IsValue(v)
    ensures var r := ValueRead(s, v);
            r.flags + FinishedFlag(r.hs) == s.flags + ListFlags(Items(v)) && r.contentLength == s.contentLength
  {
    hide ListFlags, ItemState, ItemFlag, BeginsWord, IsWord, Derailed, Trim, Items, ValueRead;
    ConnectionRead(s, v);
    var r, items := ValueRead(s, v), Items(v);
    var k := |items| - 1;
    var u := items[k];
    if Derailed(items) {
      DerailedFlags(items);
    } else {
      DerailsLast(items, ' ');
      ListFlagsLast(items);
      LastFlag(u);
    }
  }

  lemma LastFlag(u: string)
    ensures FinishedFlag(ItemState(Trim(u))) == ItemFlag(u)
  {
    hide BeginsWord, IsWord, Trim, Lower;
    WordBounds(Trim(u), KEEP_ALIVE);
    WordBounds(Trim(u), CLOSE);
    WordBounds(Trim(u), UPGRADING);
    if Trim(u) != "" {
      OneWord(Trim(u));
    }
  }

  lemma {:induction false} ConnectionRead(s: ValueState, v: string)
    requires s.hs == ConnectionName && v != "" && IsValue(v)
    ensures ListRead(s, ValueRead(s, v), Items(v))
    ensures |Items(v)| == 1 ==> Trim(Items(v)[0]) != ""
  {
    hide ListRead, Trim, ListFlags, IsValue, NextStep, InsideValue;
    var n := |v| - 1;
    if n == 0 {
      assert v == [v[0]];
      FirstItem(s, v[0]);
    } else {
      ValueFront(v);
      ConnectionRead(s, v[..n]);
      ListStep(s, ValueRead(s, v[..n]), Items(v[..n]), v[n]);
    }
  }

  lemma ValueFront(v: string)
    requires |v| > 1 && IsValue(v)
    ensures IsValue(v[..|v| - 1]) && InsideValue(v[|v| - 1])
  {
    assert v[..|v| - 1][0] == v[0];
  }

  lemma JustOneItem(ch: char)
    requires ch != ' '
    ensures Items([ch]) == [[ch]] && Trim([ch]) == [ch]
  {
    assert [ch][..0] == "" && "" + [ch] == [ch];
    assert Items("") == [""];
  }

  lemma FirstItem(s: ValueState, ch: char)
    requires s.hs == ConnectionName && IsValue([ch])
    ensures ListRead(s, ValueRead(s, [ch]), Items([ch]))
    ensures |Items([ch])| == 1 && Trim(Items([ch])[0]) != ""
  {
    hide Lower, BeginsWord, IsWord, Items, Trim;
    JustOneItem(ch);
    assert [ch][0] == ch && [[ch]][..0] == [];
    assert s.flags + {} == s.flags;
    WordFirst(ch, KEEP_ALIVE);
    WordFirst(ch, CLOSE);
    WordFirst(ch, UPGRADING);
  }

  /** In a list that does not derail, every item counts. */
  lemma {:induction false} EveryItemCounts(items: seq<string>, flag: Flag)
    requires !Derailed(items)
    ensures flag in ListFlags(items) <==> exists i :: 0 <= i < |items| && flag in ItemFlag(items[i])
  {
    hide ItemFlag, Derails;
    if items != [] {
      var k := |items| - 1;
      DerailsLast(items, ' ');
      EveryItemCounts(items[..k], flag);
      assert forall i :: 0 <= i < k ==> items[..k][i] == items[i];
    }
  }

  // ---------------------------------------------------------------- what a derailed list loses

  function TrimBlanks(u: string): string {
    if u != "" && (u[0] == ' ' || u[0] == '\t') then TrimBlanks(u[1..]) else u
  }

  /** The flag an item stands for, whatever white space is in front of it. */
  function MeantFlag(u: string): set<Flag> { ItemFlag(TrimBlanks(u)) }

  function MeantFlags(items: seq<string>): set<Flag> {
    if items == [] then {} else MeantFlags(items[..|items| - 1]) + MeantFlag(items[|items| - 1])
  }

  lemma TrimTwice(u: string)
    ensures Trim(TrimBlanks(u)) == TrimBlanks(u)
  {
  }

  /** An item with a tab in front derails; any other is taken for what it stands for. */
  lemma MeantOrDerails(u: string)
    ensures !Derails(u) || Trim(u) == TrimBlanks(u) ==> MeantFlag(u) == ItemFlag(u)
  {
    hide ItemFlag, Lower;
    TrimTwice(u);
    TabLowered();
    if Trim(u) != TrimBlanks(u) {
      TabInFront(u);
    }
    hide TrimBlanks, Trim;
    SameTrimmed(u, TrimBlanks(u));
  }

  lemma SameTrimmed(u: string, w: string)
    ensures Trim(u) == Trim(w) ==> ItemFlag(u) == ItemFlag(w)
  {
    hide IsWord, Trim;
  }

  lemma {:induction false} TabInFront(u: string)
    requires Trim(u) != TrimBlanks(u)
    ensures Trim(u) != "" && Trim(u)[0] == '\t'
  {
    if u != "" && u[0] == ' ' {
      TabInFront(u[1..]);
    }
  }

  lemma TabLowered()
    ensures TokenChar(Lower('\t')) == '\0'
  {
  }

  /** The item does not count: it derails, or stands behind one that does. */
  predicate Lost(items: seq<string>, i: nat)
    requires i < |items|
  {
    Derailed(items[..i + 1])
  }

  /** A list has the flags of all its items exactly if every item that is lost stands for a flag
      that an item in front sets. */
  lemma AllFlagsSet(items: seq<string>)
    requires items != [] && Trim(items[0]) == TrimBlanks(items[0])
    ensures ListFlags(items) == MeantFlags(items) <==>
              forall i :: 0 <= i < |items| && Lost(items, i) ==> MeantFlag(items[i]) <= ListFlags(items)
  {
    hide ListFlags, MeantFlags, MeantFlag, Lost;
    CountedAndLost(items);
    forall i | 0 <= i < |items| ensures MeantFlag(items[i]) <= MeantFlags(items) {
      MeantAmong(items, i);
    }
    if forall i :: 0 <= i < |items| && Lost(items, i) ==> MeantFlag(items[i]) <= ListFlags(items) {
      assert MeantFlags(items) <= ListFlags(items);
    }
  }

  lemma {:induction false} MeantAmong(items: seq<string>, i: nat)
    requires i < |items|
    ensures MeantFlag(items[i]) <= MeantFlags(items)
  {
    hide MeantFlag;
    var n := |items| - 1;
    if i < n {
      MeantAmong(items[..n], i);
    }
  }

  /** The flags set are those of the items that are not lost. */
  lemma {:induction false} CountedAndLost(items: seq<string>)
    requires items != [] && Trim(items[0]) == TrimBlanks(items[0])
    ensures ListFlags(items) <= MeantFlags(items)
    ensures forall flag :: flag in MeantFlags(items) ==>
              flag in ListFlags(items) || exists i :: 0 <= i < |items| && Lost(items, i) && flag in MeantFlag(items[i])
  {
    hide MeantFlag, Derails, ItemFlag, Trim, TrimBlanks;
    var n := |items| - 1;
    var front := items[..n];
    MeantOrDerails(items[n]);
    if n > 0 {
      assert front[0] == items[0];
      CountedAndLost(front);
      forall flag, i | 0 <= i < n && Lost(front, i) && flag in MeantFlag(front[i])
        ensures Lost(items, i) && flag in MeantFlag(items[i])
      {
        assert front[..i + 1] == items[..i + 1] && front[i] == items[i];
      }
    }
    LastLost(items);
  }

  /** The last item is lost if the list derails; otherwise it counts. */
  lemma LastLost(items: seq<string>)
    requires items != []
    ensures var n := |items| - 1;
            && items[..n + 1] == items
            && ListFlags(items) == ListFlags(items[..n]) + (if Derailed(items) then {} else ItemFlag(items[n]))
            && (!Derailed(items) && n > 0 ==> !Derails(items[n]))
  {
    hide Derails, ItemFlag;
    var n := |items| - 1;
    if Derailed(items) {
      DerailedFlags(items);
    } else {
      DerailsLast(items, ' ');
    }
  }

  lemma TwoItems(a: string, b: string)
    requires ',' !in a && ',' !in b && Ends(a)
    ensures Items(a + "," + b) == [a, b]
  {
    hide Items, Ends;
    NoItems();
    ItemsFeed("", a);
    assert "" + a == a && [""][..0] + [a] == [a];
    ItemsComma(a);
    ItemsFeed(a + ",", b);
    assert "" + b == b && ([a] + [""])[..1] + [b] == [a, b];
  }

  /** A list sets a flag exactly if some item that is not lost is its word, in any case, and spaces. */
  lemma {:induction false} ListSets(items: seq<string>, flag: Flag)
    ensures flag in ListFlags(items) <==>
              exists i :: 0 <= i < |items| && !Lost(items, i) && flag in ItemFlag(items[i])
  {
    hide ItemFlag, Derails, Derailed;
    if items != [] {
      var n := |items| - 1;
      var front := items[..n];
      ListSets(front, flag);
      LastLost(items);
      forall i | 0 <= i < n ensures Lost(front, i) == Lost(items, i) && front[i] == items[i] {
        assert front[..i + 1] == items[..i + 1];
      }
      assert Lost(items, n) == Derailed(items);
    }
  }

  /** The word of a flag. */
  lemma FlagWord(u: string)
    ensures KeepAlive in ItemFlag(u) <==> IsWord(Trim(u), KEEP_ALIVE)
    ensures Close in ItemFlag(u) <==> IsWord(Trim(u), CLOSE)
    ensures ConnectionUpgrade in ItemFlag(u) <==> IsWord(Trim(u), UPGRADING)
    ensures ItemFlag(u) <= {KeepAlive, Close, ConnectionUpgrade}
  {
    hide BeginsWord, IsWord, Trim, Lower;
    var w := Trim(u);
    WordBounds(w, KEEP_ALIVE);
    WordBounds(w, CLOSE);
    WordBounds(w, UPGRADING);
    if w != "" {
      OneWord(w);
    }
  }

  lemma {:induction false} ListFlagsOnly(items: seq<string>)
    ensures ListFlags(items) <= {KeepAlive, Close, ConnectionUpgrade}
  {
    hide ItemFlag, Derailed;
    if items != [] {
      ListFlagsOnly(items[..|items| - 1]);
      FlagWord(items[|items| - 1]);
    }
  }

  /** A tab behind a comma: the item is lost. */
  lemma TabDerails()
    ensures Items("close" + "," + "\tkeep-alive") == ["close", "\tkeep-alive"]
    ensures Lost(["close", "\tkeep-alive"], 1) && MeantFlag("\tkeep-alive") == {KeepAlive}
    ensures ListFlags(["close", "\tkeep-alive"]) == {Close}
  {
    hide Items, ItemFlag, Trim, Derails, Ends, MeantFlag;
    CloseIsWord();
    TabbedKeepAlive();
    TwoItems("close", "\tkeep-alive");
    SecondDerails("close", "\tkeep-alive");
  }

  lemma SecondDerails(a: string, b: string)
    requires Derails(b)
    ensures Lost([a, b], 1) && ListFlags([a, b]) == ItemFlag(a)
  {
    hide Derails, ItemFlag;
    var items := [a, b];
    assert Derails(items[1]) && items[..2] == items && items[..1] == [a];
    DerailedFlags(items);
    OneItemFlag(a);
  }

  lemma CloseIsWord()
    ensures Ends("close") && ItemFlag("close") == {Close}
  {
    assert Trim("close") == "close" && "close"[..5] == CLOSE && "close"[5..] == "";
    assert Lower("close"[0]) == 'c';
    assert IsWord("close", CLOSE);
  }

  lemma TabbedKeepAlive()
    ensures Derails("\tkeep-alive") && MeantFlag("\tkeep-alive") == {KeepAlive}
  {
    var u := "\tkeep-alive";
    assert u[1..] == KEEP_ALIVE && TrimBlanks(u) == KEEP_ALIVE && Trim(KEEP_ALIVE) == KEEP_ALIVE;
    assert KEEP_ALIVE[..10] == KEEP_ALIVE && KEEP_ALIVE[10..] == "";
    TabLowered();
  }

  // ---------------------------------------------------------------- lists as they are printed

  function List(texts: seq<string>): string
    requires texts != []
  {
    var k := |texts| - 1;
    if k == 0 then texts[0] else List(texts[..k]) + "," + texts[k]
  }

  predicate AreTexts(texts: seq<string>) {
    texts != [] && forall i :: 0 <= i < |texts| ==> ',' !in texts[i] && Trim(texts[i]) != ""
  }

  /** Every comma of the list ends an item. */
  predicate AllEnd(texts: seq<string>) { forall i :: 0 <= i < |texts| - 1 ==> !BeginsToken(Trim(texts[i])) }

  /** A list is taken apart at all its commas exactly if no item but the last is the mere
      beginning of a known token. */
  lemma {:induction false} ListIsItems(texts: seq<string>)
    requires AreTexts(texts)
    ensures if AllEnd(texts) then Items(List(texts)) == texts else |Items(List(texts))| < |texts|
  {
    hide Items, BeginsToken, Trim, OneMore;
    var k := |texts| - 1;
    if k == 0 {
      ItemsFeed("", texts[0]);
      NoItems();
      assert "" + texts[0] == texts[0] && [""][..0] + [texts[0]] == texts;
    } else {
      var front, last := texts[..k], texts[k];
      assert forall i :: 0 <= i < k ==> front[i] == texts[i];
      ListIsItems(front);
      var v := List(front);
      var items := Items(v);
      ItemsComma(v);
      ItemsFeed(v + ",", last);
      AllEndMore(texts);
      if AllEnd(texts) {
        assert items == front && Ends(texts[k - 1]);
        assert Items(v + ",") == texts[..k] + [""];
        assert "" + last == last && texts[..k] + [last] == texts;
        assert (texts[..k] + [""])[..k] == texts[..k];
      }
    }
  }

  lemma AllEndMore(texts: seq<string>)
    requires |texts| > 1
    ensures var k := |texts| - 1;
            AllEnd(texts) <==> AllEnd(texts[..k]) && !BeginsToken(Trim(texts[k - 1]))
  {
    hide BeginsToken, Trim;
    var k := |texts| - 1;
    var front := texts[..k];
    assert forall i :: 0 <= i < k ==> front[i] == texts[i];
    if AllEnd(front) && !BeginsToken(Trim(texts[k - 1])) {
      forall i | 0 <= i < k ensures !BeginsToken(Trim(texts[i])) {
        assert i < k - 1 ==> !BeginsToken(Trim(front[i]));
      }
    }
    if AllEnd(texts) {
      forall i | 0 <= i < k - 1 ensures !BeginsToken(Trim(front[i])) {
        assert !BeginsToken(Trim(texts[i]));
      }
    }
  }

  lemma NoItems()
    ensures Items("") == [""]
  {
  }

  /** A text without a comma goes to the last item. */
  lemma {:induction false} ItemsFeed(v: string, w: string)
    requires ',' !in w
    ensures var items := Items(v);
            var k := |items| - 1;
            Items(v + w) == items[..k] + [items[k] + w]
  {
    hide Items;
    if w == "" {
      assert v + w == v;
      var items := Items(v);
      var k := |items| - 1;
      assert items[k] + w == items[k] && items[..k] + [items[k]] == items;
    } else {
      var n := |w| - 1;
      ItemsFeed(v, w[..n]);
      ItemsMore(v + w[..n], w[n]);
      assert v + w == v + w[..n] + [w[n]] && w == w[..n] + [w[n]];
      var items := Items(v);
      var k := |items| - 1;
      assert (items[k] + w[..n]) + [w[n]] == items[k] + w;
    }
  }

  lemma ItemsMore(v: string, ch: char)
    ensures Items(v + [ch]) == OneMore(Items(v), ch)
  {
    assert (v + [ch])[..|v|] == v;
  }

  lemma ItemsComma(v: string)
    ensures var items := Items(v);
            var k := |items| - 1;
            Items(v + ",") == if Ends(items[k]) then items + [""] else items[..k] + [items[k] + ","]
  {
    hide Ends, Items;
    ItemsMore(v, ',');
    assert [','] == ",";
  }

  /** The single letter "c" keeps its comma, and "close" behind it is not recognised. */
  lemma CommaKept()
    ensures Items("c, close") == ["c, close"] && ListFlags(Items("c, close")) == {}
  {
    var v := "c, close";
    hide Items, ItemFlag, Trim, BeginsToken;
    NoItems();
    ItemsFeed("", "c");
    assert "" + "c" == "c" && [""][..0] + ["c"] == ["c"];
    TrimOnly();
    ItemsComma("c");
    assert "c" + "," == "c,";
    assert ["c"][..0] + ["c,"] == ["c,"];
    ItemsFeed("c,", " close");
    assert "c," + " close" == v;
    assert ["c,"][..0] + [v] == [v];
    NoWord(v);
    OneItemFlag(v);
  }

  lemma OneItemFlag(u: string)
    ensures ListFlags([u]) == ItemFlag(u)
  {
    assert [u][..0] == [];
    assert ListFlags([]) == {} && {} + ItemFlag(u) == ItemFlag(u);
  }

  /** A comma is no letter. */
  lemma NoWord(u: string)
    requires |u| > 1 && u[1] == ',' && u[0] != ' '
    ensures ItemFlag(u) == {}
  {
    CommaLowered();
    forall word | word == KEEP_ALIVE || word == CLOSE || word == UPGRADING ensures !IsWord(u, word) {
      assert |word| <= |u| ==> u[..|word|][1] == ',';
    }
  }

  lemma TrimOnly()
    ensures Trim("c") == "c" && BeginsToken("c")
  {
    assert CLOSE[..1] == "c";
    assert SameText("c", CLOSE[..1]);
  }
}
