/** The character classes of the parsers, each as the list of its members that the standards spell
    out, and the values of digits as their places in such a list.
 */
module HttpClasses {
  import opened Alphabets
  import opened HttpTypes
  import opened HttpStep
  import opened HttpUrl

  const DIGITS := "0123456789"
  const LOWER_LETTERS := "abcdefghijklm" + "nopqrstuvwxyz"
  const UPPER_LETTERS := "ABCDEFGHIJKLM" + "NOPQRSTUVWXYZ"

  /** A letter or digit of RFC 2234. */
  predicate Listed(c: char) { c in LOWER_LETTERS || c in UPPER_LETTERS || c in DIGITS }

  lemma DigitIs(c: char)
    ensures IsNum(c) <==> c in DIGITS
    ensures IsNum(c) ==> DIGITS[Digit(c)] == c
  {
    var d := "0123456789";
    if IsNum(c) {
      assert d[c as int - '0' as int] == c;
    }
  }

  lemma AlphabetsAre(c: char)
    ensures c in LOWER_LETTERS <==> 'a' <= c <= 'z'
    ensures c in UPPER_LETTERS <==> 'A' <= c <= 'Z'
  {
    hide RunFrom;
    HalvesAre();
    var a, n, A, N := "abcdefghijklm", "nopqrstuvwxyz", "ABCDEFGHIJKLM", "NOPQRSTUVWXYZ";
    AmongRun(a, 'a', c);
    AmongRun(n, 'n', c);
    AmongRun(A, 'A', c);
    AmongRun(N, 'N', c);
  }

  lemma LetterIs(c: char)
    ensures IsAlpha(c) <==> c in LOWER_LETTERS || c in UPPER_LETTERS
    ensures IsAlphaNum(c) <==> Listed(c)
  {
    hide LOWER_LETTERS, UPPER_LETTERS, DIGITS;
    DigitIs(c);
    AlphabetsAre(c);
  }

  lemma PlacesAre(i: nat)
    requires i < 26
    ensures |LOWER_LETTERS| == |UPPER_LETTERS| == 26
    ensures LOWER_LETTERS[i] as int == 'a' as int + i && UPPER_LETTERS[i] as int == 'A' as int + i
  {
    HalvesAre();
  }

  /** A letter is lowered to the one in its place, and what is no capital letter stays. */
  lemma LowerIs(i: nat, c: char)
    requires i < 26 && |LOWER_LETTERS| == |UPPER_LETTERS| == 26
    ensures TokenChar(UPPER_LETTERS[i]) == Lower(UPPER_LETTERS[i]) == LOWER_LETTERS[i] == Lower(LOWER_LETTERS[i])
    ensures c !in UPPER_LETTERS && TokenChar(c) != '\0' ==> TokenChar(c) == c
  {
    hide LOWER_LETTERS, UPPER_LETTERS;
    AlphabetsAre(c);
    PlacesAre(i);
  }

  /** The characters of a header name: tchar of RFC 7230 section 3.2.6. */
  lemma TokenIs(c: char)
    ensures TokenChar(c) != '\0' <==> Listed(c) || c in "!#$%&'*+-.^_`|~"
  {
    hide LOWER_LETTERS, UPPER_LETTERS, DIGITS;
    LetterIs(c);
  }

  /** The characters of a header value behind its first one: the visible ones, space and tab of RFC
      7230 section 3.2, and every byte from 0x80 on. */
  lemma ValueIs(c: char)
    requires c != CR && c != LF
    ensures IsHeaderChar(c) <==> ' ' <= c <= '~' || c == '\t' || c as int >= 0x80
  {
  }

  /** userinfo of RFC 2396 section 3.2.2: unreserved, escaped and ";:&=+$," */
  lemma UserinfoIs(c: char)
    ensures IsUserinfoChar(c) <==> Listed(c) || c in "-_.!~*'()" || c in "%;:&=+$,"
  {
    hide LOWER_LETTERS, UPPER_LETTERS, DIGITS;
    LetterIs(c);
  }

  lemma HostIs(c: char)
    ensures IsHostChar(c) <==> Listed(c) || c in "-."
  {
    hide LOWER_LETTERS, UPPER_LETTERS, DIGITS;
    LetterIs(c);
  }

  /** ZoneID of RFC 6874: unreserved or percent-encoded. */
  lemma ZoneIs(c: char)
    ensures IsZoneChar(c) <==> Listed(c) || c in "-._~%"
  {
    hide LOWER_LETTERS, UPPER_LETTERS, DIGITS;
    LetterIs(c);
  }

  /** Paths take every visible ASCII character but the marks of the query and the fragment. */
  lemma PathIs(c: char)
    ensures IsUrlChar(c) <==> 0x21 <= c as int <= 0x7E && c !in "?#"
  {
  }

  lemma HexIs(c: char)
    ensures IsHex(c) <==> c in "0123456789abcdef" || c in "0123456789ABCDEF"
    ensures IsHex(c) ==> 0 <= Unhex(c) < 16 && (c == "0123456789abcdef"[Unhex(c)] || c == "0123456789ABCDEF"[Unhex(c)])
  {
    var l, u := "0123456789abcdef", "0123456789ABCDEF";
    if IsHex(c) {
      assert c == l[Unhex(c)] || c == u[Unhex(c)];
    }
  }

  // ---------------------------------------------------------------- methods

  /** The methods of RFC 7231, of RFC 5789 and of the extensions: a list of all names. */
  predicate IsMethodName(w: string) { IsHttpMethod(w) || IsDavMethod(w) || IsOtherMethod(w) }

  predicate IsHttpMethod(w: string) {
    || w == "DELETE" || w == "GET" || w == "HEAD" || w == "POST" || w == "PUT" || w == "CONNECT" || w == "OPTIONS"
    || w == "TRACE" || w == "PATCH" || w == "PURGE"
  }

  predicate IsDavMethod(w: string) {
    || w == "COPY" || w == "LOCK" || w == "MKCOL" || w == "MOVE" || w == "PROPFIND" || w == "PROPPATCH"
    || w == "SEARCH" || w == "UNLOCK" || w == "BIND" || w == "REBIND" || w == "UNBIND" || w == "ACL"
    || w == "MKCALENDAR" || w == "LINK" || w == "UNLINK"
  }

  predicate IsOtherMethod(w: string) {
    || w == "REPORT" || w == "MKACTIVITY" || w == "CHECKOUT" || w == "MERGE" || w == "M-SEARCH" || w == "NOTIFY"
    || w == "SUBSCRIBE" || w == "UNSUBSCRIBE" || w == "SOURCE"
  }

  lemma MethodIsNamed(m: Method)
    ensures IsMethodName(MethodString(m))
  {
  }

  lemma HttpMethods(w: string) returns (m: Method)
    requires IsHttpMethod(w)
    ensures MethodString(m) == w
  {
    m := if w == "DELETE" then Delete else if w == "GET" then Get else if w == "HEAD" then Head
         else if w == "POST" then Post else if w == "PUT" then Put else if w == "CONNECT" then Connect
         else if w == "OPTIONS" then Options else if w == "TRACE" then Trace
         else if w == "PATCH" then Patch else Purge;
  }

  lemma DavMethods(w: string) returns (m: Method)
    requires IsDavMethod(w)
    ensures MethodString(m) == w
  {
    m := if w == "COPY" then Copy else if w == "LOCK" then Lock else if w == "MKCOL" then Mkcol
         else if w == "MOVE" then Move else if w == "PROPFIND" then Propfind else if w == "PROPPATCH" then Proppatch
         else if w == "SEARCH" then Search else if w == "UNLOCK" then Unlock else if w == "BIND" then Bind
         else if w == "REBIND" then Rebind else if w == "UNBIND" then Unbind else if w == "ACL" then Acl
         else if w == "MKCALENDAR" then Mkcalendar else if w == "LINK" then Link else Unlink;
  }

  lemma OtherMethods(w: string) returns (m: Method)
    requires IsOtherMethod(w)
    ensures MethodString(m) == w
  {
    m := if w == "REPORT" then Report else if w == "MKACTIVITY" then Mkactivity else if w == "CHECKOUT" then Checkout
         else if w == "MERGE" then Merge else if w == "M-SEARCH" then Msearch else if w == "NOTIFY" then Notify
         else if w == "SUBSCRIBE" then Subscribe else if w == "UNSUBSCRIBE" then Unsubscribe else Source;
  }

  /** The method strings are exactly these. */
  lemma MethodNames(w: string)
    ensures (exists m :: MethodString(m) == w) <==> IsMethodName(w)
  {
    hide MethodString, IsHttpMethod, IsDavMethod, IsOtherMethod;
    if IsHttpMethod(w) {
      var m := HttpMethods(w);
    } else if IsDavMethod(w) {
      var m := DavMethods(w);
    } else if IsOtherMethod(w) {
      var m := OtherMethods(w);
    }
    forall m | MethodString(m) == w ensures IsMethodName(w) {
      MethodIsNamed(m);
    }
  }
}
