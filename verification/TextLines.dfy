/** Text in lines: what the two codecs have in common. */
module TextLines {

  type Octet = b: int | 0 <= b < 256

  /** Text in lines of w characters, each full one followed by a line feed. */
  function Wrap(text: string, w: nat): string {
    if w == 0 || |text| < w then text else text[..w] + "\n" + Wrap(text[w..], w)
  }

  /** The length of the unfinished last line. */
  function LastLine(n: nat, w: nat): nat {
    if w == 0 || n < w then n else LastLine(n - w, w)
  }

  /** More text at the end, up to the end of the last line. */
  lemma {:induction false} WrapMore(text: string, w: nat, more: string)
    requires w > 0 && more != "" && LastLine(|text|, w) + |more| <= w
    ensures Wrap(text + more, w) == Wrap(text, w) + more + (if LastLine(|text|, w) + |more| == w then "\n" else "")
    decreases |text|
  {
    var t := text + more;
    NothingWrapped(w);
    if |text| >= w {
      assert LastLine(|text|, w) == LastLine(|text[w..]|, w);
      WrapMore(text[w..], w, more);
      assert t[..w] == text[..w] && t[w..] == text[w..] + more;
      hide LastLine;
      var lf := if LastLine(|text|, w) + |more| == w then "\n" else "";
      assert Wrap(t, w) == text[..w] + "\n" + (Wrap(text[w..], w) + more + lf);
    } else {
      assert LastLine(|text|, w) == |text| && Wrap(text, w) == text;
      hide LastLine;
      if |t| == w {
        assert t[..w] == t && t[w..] == "";
      }
    }
  }

  lemma {:induction false} LastLineMore(n: nat, w: nat, more: nat)
    requires w > 0 && more > 0 && LastLine(n, w) + more <= w
    ensures LastLine(n + more, w) == if LastLine(n, w) + more == w then 0 else LastLine(n, w) + more
    decreases n
  {
    NothingWrapped(w);
    if n >= w {
      LastLineMore(n - w, w, more);
    }
  }

  lemma NothingWrapped(w: nat)
    ensures Wrap("", w) == "" && LastLine(0, w) == 0
  {
  }

  lemma {:induction false} LastLineFits(n: nat, w: nat)
    requires w > 0
    ensures LastLine(n, w) < w
    decreases n
  {
    if n >= w {
      LastLineFits(n - w, w);
    }
  }

  /** Lines filled by pairs are filled exactly. */
  lemma {:induction false} LastLineOfPairs(n: nat, w: nat)
    requires w > 0 && w % 2 == 0 && n % 2 == 0
    ensures LastLine(n, w) % 2 == 0 && LastLine(n, w) + 2 <= w
    decreases n
  {
    if n >= w {
      LastLineOfPairs(n - w, w);
    } else {
      assert LastLine(n, w) == n;
    }
  }

  /** And so are lines filled by groups of four. */
  lemma {:induction false} LastLineOfFours(n: nat, w: nat)
    requires w > 0 && w % 4 == 0 && n % 4 == 0
    ensures LastLine(n, w) % 4 == 0 && LastLine(n, w) + 4 <= w
    decreases n
  {
    if n >= w {
      LastLineOfFours(n - w, w);
    } else {
      assert LastLine(n, w) == n;
    }
  }

  lemma NoWrap(text: string)
    ensures Wrap(text, 0) == text
  {
  }

  lemma {:induction false} Above(d: int, a: int, b: int)
    requires d >= 0 && a > b
    ensures d * a >= d * b + d
    decreases a - b
  {
    if a > b + 1 {
      Above(d, a - 1, b);
    }
    assert d * a == d * (a - 1) + d;
  }

  lemma QuotientOf(n: int, d: int, q: int, r: int)
    requires d > 0 && n == d * q + r && 0 <= r < d
    ensures n / d == q && n % d == r
  {
    var q' := n / d;
    assert n == d * q' + n % d;
    if q' > q {
      Above(d, q', q);
    } else if q' < q {
      Above(d, q, q');
    }
  }

  lemma OneMore(n: int, d: int)
    requires d > 0
    ensures (n + d) / d == n / d + 1 && (n + d) % d == n % d
  {
    assert n == d * (n / d) + n % d;
    assert d * (n / d + 1) == d * (n / d) + d;
    QuotientOf(n + d, d, n / d + 1, n % d);
  }

  predicate NoLineFeed(text: string) { forall i :: 0 <= i < |text| ==> text[i] != '\n' }

  /** Wrapped text has a line feed behind every w characters and nowhere else. */
  lemma {:induction false} WrapLayout(text: string, w: nat)
    requires w > 0 && NoLineFeed(text)
    ensures |Wrap(text, w)| == |text| + |text| / w
    ensures forall p :: 0 <= p < |Wrap(text, w)| ==> (Wrap(text, w)[p] == '\n' <==> p % (w + 1) == w)
    decreases |text|
  {
    var t := Wrap(text, w);
    if |text| < w {
      forall p | 0 <= p < |t| ensures t[p] == '\n' <==> p % (w + 1) == w { QuotientOf(p, w + 1, 0, p); }
      QuotientOf(|text|, w, 0, |text|);
    } else {
      var rest := Wrap(text[w..], w);
      WrapLayout(text[w..], w);
      OneMore(|text| - w, w);
      forall p | 0 <= p < |t| ensures t[p] == '\n' <==> p % (w + 1) == w {
        if p <= w {
          QuotientOf(p, w + 1, 0, p);
        } else {
          assert t[p] == rest[p - w - 1];
          OneMore(p - w - 1, w + 1);
        }
      }
    }
  }
}
