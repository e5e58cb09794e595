/** The additive-feedback random number generator: Schrage's overflow-free multiplication,
    and a table with two cyclic pointers that computes an unbounded linear recurrence.
 */
module Random {
  import opened TextLines

  // ---------------------------------------------------------------- machine integers

  const TWO_32 := 0x1_0000_0000

  type Uint32 = x: int | 0 <= x < 0x1_0000_0000

  type Int32 = x: int | -0x8000_0000 <= x < 0x8000_0000

  function ToInt32(u: Uint32): Int32 { if u < 0x8000_0000 then u else u - TWO_32 }

  predicate FitsInt32(x: int) { -0x8000_0000 <= x < 0x8000_0000 }

  // ---------------------------------------------------------------- Schrage's multiplication

  /** 2^31 - 1 */
  const M := 0x7FFF_FFFF

  /** Truncating division by 127773. */
  function Hi(x: int): int { if x >= 0 then x / 127773 else -(-x / 127773) }

  function Lo(x: int): int { x - 127773 * Hi(x) }

  /** goodRand */
  function GoodRand(seed: Int32): int {
    var x := if seed == 0 then 123459876 else seed;
    var y := 16807 * Lo(x) - 2836 * Hi(x);
    if y < 0 then y + M else y
  }

  /** No intermediate result leaves 32 bits, and the result is the residue of the product. */
  lemma Schrage(x: Int32)
    requires x != 0
    ensures FitsInt32(16807 * Lo(x)) && FitsInt32(2836 * Hi(x)) && FitsInt32(16807 * Lo(x) - 2836 * Hi(x))
    ensures GoodRand(x) == 16807 * x % M
    ensures 0 <= GoodRand(x) < M
  {
    var hi, lo := Hi(x), Lo(x);
    var y := 16807 * lo - 2836 * hi;
    HiAndLo(x);
    hide Hi, Lo;
    assert 16807 * x == M * hi + y;
    assert -M < y < M;
    if y < 0 {
      ResidueOf(16807 * x, hi - 1, y + M);
    } else {
      ResidueOf(16807 * x, hi, y);
    }
  }

  lemma HiAndLo(x: Int32)
    ensures x == 127773 * Hi(x) + Lo(x) && -127773 < Lo(x) < 127773 && -16807 <= Hi(x) <= 16807
    ensures if x < 0 then Lo(x) <= 0 && Hi(x) <= 0 else Lo(x) >= 0 && Hi(x) >= 0
  {
    var n: int := if x < 0 then 0 - x else x;
    assert 0 <= n / 127773 <= 16807 && 0 <= n % 127773 < 127773;
  }

  /** The residues that are not 0. */
  predicate InCycle(x: int) { 1 <= x < M }

  function Residue(k: nat, x: int): int { k * x % M }

  /** Undoes a multiplication by 16807. */
  function Undo(y: int): int { Residue(1407677000, y) }

  /** goodRand permutes 1, ..., 2^31 - 2. */
  lemma GoodRandPermutes(x: int)
    requires InCycle(x)
    ensures InCycle(GoodRand(x)) && Undo(GoodRand(x)) == x
    ensures InCycle(Undo(x)) && GoodRand(Undo(x)) == x
  {
    hide GoodRand, Residue;
    ResidueInverse(x);
    StaysInCycle(16807, x);
    StaysInCycle(1407677000, x);
    GoodRandIs(x);
    GoodRandIs(Undo(x));
  }

  lemma GoodRandIs(x: int)
    requires InCycle(x)
    ensures GoodRand(x) == Residue(16807, x)
  {
    hide GoodRand;
    Schrage(x);
  }

  lemma ResidueInverse(x: int)
    requires 0 <= x < M
    ensures Residue(1407677000, Residue(16807, x)) == x && Residue(16807, Residue(1407677000, x)) == x
  {
    Inverse(x);
  }

  /** Both multiplications have an inverse, and so lead to 0 from 0 only. */
  lemma StaysInCycle(k: nat, x: int)
    requires InCycle(x) && (k == 16807 || k == 1407677000)
    ensures InCycle(Residue(k, x))
  {
    ResidueInverse(x);
    ResidueRange(k, x);
    hide Residue;
    ResidueOfZero(16807);
    ResidueOfZero(1407677000);
  }

  lemma ResidueRange(k: nat, x: int)
    ensures 0 <= Residue(k, x) < M
  {
  }

  lemma ResidueOfZero(k: nat)
    ensures Residue(k, 0) == 0
  {
  }

  lemma Inverse(x: int)
    requires 0 <= x < M
    ensures 1407677000 * (16807 * x % M) % M == x
    ensures 16807 * (1407677000 * x % M) % M == x
  {
    var q, r := 16807 * x / M, 16807 * x % M;
    ResidueOf(1407677000 * r, 11017 * x - 1407677000 * q, x);
    var p, s := 1407677000 * x / M, 1407677000 * x % M;
    ResidueOf(16807 * s, 11017 * x - 16807 * p, x);
  }

  lemma ResiduesAgree(n: int, k: int)
    ensures (M * k + n) % M == n % M
  {
    ResidueOf(M * k + n, k + n / M, n % M);
  }

  lemma ResidueOf(n: int, k: int, r: int)
    requires n == M * k + r && 0 <= r < M
    ensures n % M == r
  {
  }

  lemma InCycleFits(x: int)
    requires InCycle(x)
    ensures 1 <= x < 0x8000_0000
  {
  }

  function Power(n: nat): int { if n == 0 then 1 else 16807 * Power(n - 1) }

  lemma PowerTimes(n: nat, x: int)
    requires n > 0
    ensures Power(n) * x == 16807 * (Power(n - 1) * x)
  {
    Associates(Power(n - 1), x);
  }

  lemma Associates(p: int, x: int)
    ensures 16807 * p * x == 16807 * (p * x)
  {
  }

  lemma ProductResidue(n: int)
    ensures 16807 * (n % M) % M == 16807 * n % M
  {
    var q, r := n / M, n % M;
    ResiduesAgree(16807 * r, 16807 * q);
    assert 16807 * n == M * (16807 * q) + 16807 * r;
  }

  // ---------------------------------------------------------------- the recurrence

  /** The degrees and separations of the four trinomials. */
  predicate IsTrinomial(deg: nat, sep: nat) {
    (deg == 7 && sep == 3) || (deg == 15 && sep == 1) || (deg == 31 && sep == 3) || (deg == 63 && sep == 1)
  }

  /** x(n) = x(n - deg) + x(n - sep) from the first deg values on. */
  function X(first: seq<Uint32>, deg: nat, sep: nat, n: nat): Uint32
    requires IsTrinomial(deg, sep) && |first| == deg
  {
    if n < deg then first[n] else (X(first, deg, sep, n - deg) + X(first, deg, sep, n - sep)) % TWO_32
  }

  /** How far a slot is ahead of the front pointer, cyclically. */
  function Ahead(p: int, f: int, deg: int): int { if p >= f then p - f else p - f + deg }

  /** The chain of linear congruential values that fills the table. */
  function Chain(x: Uint32, n: nat): Uint32 {
    if n == 0 then x else GoodRandWord(Chain(x, n - 1))
  }

  function GoodRandWord(u: Uint32): (r: Uint32)
    ensures 0 <= r < M
  {
    var x := if ToInt32(u) == 0 then 123459876 else ToInt32(u);
    Schrage(x);
    GoodRand(ToInt32(u))
  }

  /** The table in the order in which the generator reads it first: from the front pointer on. */
  function FirstValues(table: seq<Uint32>, sep: nat): seq<Uint32>
    requires sep <= |table|
  {
    table[sep..] + table[..sep]
  }

  /** A table holds deg values of the sequence from number n on, the oldest at the front pointer. */
  ghost predicate Window(table: seq<Uint32>, first: seq<Uint32>, deg: nat, sep: nat, n: nat, f: nat)
    requires IsTrinomial(deg, sep) && |first| == |table| == deg && f < deg
  {
    forall p :: 0 <= p < deg ==> table[p] == X(first, deg, sep, n + Ahead(p, f, deg))
  }

  /** The pointers: the rear one is sep places behind the front one, cyclically. */
  predicate Apart(deg: nat, sep: nat, f: nat, r: nat) {
    f < deg && r < deg && (f == r + sep || f == r + sep - deg)
  }

  /** The sum of the two values pointed at is the next value of the sequence. */
  lemma WindowMoves(table: seq<Uint32>, first: seq<Uint32>, deg: nat, sep: nat, n: nat, f: nat, r: nat)
    requires IsTrinomial(deg, sep) && |first| == |table| == deg
    requires Apart(deg, sep, f, r) && Window(table, first, deg, sep, n, f)
    ensures (table[f] + table[r]) % TWO_32 == X(first, deg, sep, n + deg)
    ensures Window(table[f := X(first, deg, sep, n + deg)], first, deg, sep, n + 1, if f + 1 == deg then 0 else f + 1)
  {
    hide X;
    assert table[f] == X(first, deg, sep, n + Ahead(f, f, deg));
    assert table[r] == X(first, deg, sep, n + Ahead(r, f, deg));
    assert Ahead(r, f, deg) == deg - sep;
    XNext(first, deg, sep, n);
    var f' := if f + 1 == deg then 0 else f + 1;
    forall p | 0 <= p < deg
      ensures table[f := X(first, deg, sep, n + deg)][p] == X(first, deg, sep, n + 1 + Ahead(p, f', deg))
    {
      if p == f {
        assert n + 1 + Ahead(p, f', deg) == n + deg;
      } else {
        assert n + 1 + Ahead(p, f', deg) == n + Ahead(p, f, deg);
      }
    }
  }

  /** The least random bit is thrown away. */
  function Halved(x: Uint32): (h: Uint32)
    ensures h == x / 2
  {
    x / 2 % 0x8000_0000
  }

  /** From a seed in 1, ..., 2^31 - 2, the n-th value of the chain is 16807^n times the seed, and
      never 0: so it is with the generator of type 0, whose state is the chain. */
  lemma {:induction false} ChainIsPower(x: Uint32, n: nat)
    requires InCycle(x)
    ensures Chain(x, n) == Power(n) * x % M && InCycle(Chain(x, n))
  {
    if n > 0 {
      ChainIsPower(x, n - 1);
      var y := Chain(x, n - 1);
      InCycleFits(y);
      Schrage(y);
      GoodRandPermutes(y);
      PowerTimes(n, x);
      assert GoodRandWord(y) == GoodRand(y);
      hide Power, GoodRand, InCycle, GoodRandWord;
      ProductResidue(Power(n - 1) * x);
    }
  }

  /** 0 is no state of the chain: from there it goes on as from 123459876. */
  lemma {:induction false} ChainFromZero(n: nat)
    ensures Chain(0, n + 1) == Power(n + 1) * 123459876 % M == Chain(123459876, n + 1)
  {
    ChainIsPower(123459876, n + 1);
    if n == 0 {
      assert Chain(0, 0) == 0 && GoodRandWord(0) == GoodRand(123459876) == GoodRandWord(123459876);
    } else {
      ChainFromZero(n - 1);
    }
  }

  /** The first values from the seed 1. */
  lemma ChainOfOne()
    ensures Chain(1, 1) == 16807 && Chain(1, 2) == 282475249 && Chain(1, 3) == 1622650073
  {
    hide GoodRandWord, Chain;
    ChainStarts(1);
    ChainNext(1, 0);
    ChainNext(1, 1);
    ChainNext(1, 2);
    WordIs(1, 0, 16807);
    WordIs(16807, 0, 282475249);
    WordIs(282475249, 2210, 1622650073);
  }

  lemma WordIs(x: Uint32, k: int, y: int)
    requires InCycle(x) && 16807 * x == M * k + y && 0 <= y < M
    ensures GoodRandWord(x) == y
  {
    Schrage(x);
    ResidueOf(16807 * x, k, y);
  }

  class Generator {
    var randType: nat
    var randDeg: nat
    var randSep: nat
    var state: array<Uint32>
    var fptr: nat
    var rptr: nat
    ghost var first: seq<Uint32>   // the first values of the sequence the table is a window of
    ghost var steps: nat           // how many values have been added to them

    /** The table is a window of the sequence, and the rear pointer tells how often it has moved. */
    ghost predicate Valid()
      reads this, state
    {
      && randType <= 4
      && if randType == 0 then state.Length == 1
         else
           && IsTrinomial(randDeg, randSep) && state.Length == |first| == randDeg
           && Apart(randDeg, randSep, fptr, rptr) && rptr == steps % randDeg
           && Window(state[..], first, randDeg, randSep, steps, fptr)
    }

    /** next */
    method Next() returns (i: Uint32)
      requires Valid()
      modifies this`fptr, this`rptr, this`steps, state
      ensures Valid()
      ensures randType == 0 ==> i == state[0] == GoodRandWord(old(state[0])) && steps == old(steps)
      ensures randType != 0 ==> steps == old(steps) + 1 && i == X(first, randDeg, randSep, randDeg + old(steps)) / 2
    {
      hide X, Window, GoodRandWord, IsTrinomial;
      if randType == 0 {
        i := state[0];
        i := GoodRandWord(i) % 0x8000_0000;
        state[0] := i;
      } else {
        i := NextSum();
      }
    }

    method NextSum() returns (i: Uint32)
      requires Valid() && randType != 0
      modifies this`fptr, this`rptr, this`steps, state
      ensures Valid()
      ensures steps == old(steps) + 1 && i == X(first, randDeg, randSep, randDeg + old(steps)) / 2
    {
      hide X, Window, IsTrinomial, Apart;
      var f, r := fptr, rptr;
      PointersMove(randDeg, randSep, f, r, steps);
      WindowMoves(state[..], first, randDeg, randSep, steps, f, r);
      state[f] := (state[f] + state[r]) % TWO_32;
      assert state[..] == old(state[..])[f := state[f]];
      i := Halved(state[f]);
      f := f + 1;
      if f >= randDeg {
        f := 0;
        r := r + 1;
        assert r < randDeg;  // the pointers never wrap on the same call
      } else {
        r := r + 1;
        if r >= randDeg {
          r := 0;
        }
      }
      fptr, rptr := f, r;
      steps := steps + 1;
    }

    /** seed */
    method Seed(x: Uint32)
      requires randType <= 4
      requires if randType == 0 then state.Length == 1 else IsTrinomial(randDeg, randSep) && state.Length == randDeg
      modifies this`fptr, this`rptr, this`steps, this`first, state
      ensures Valid()
      ensures randType == 0 ==> state[0] == Chain(x, 50)
      ensures randType != 0 ==>
                && first == FirstValues(seq(randDeg, i requires i >= 0 => Chain(x, i)), randSep)
                && steps == 10 * randDeg && rptr == 0 && fptr == randSep
    {
      hide X, Window, GoodRandWord, IsTrinomial, Chain;
      if randType != 0 {
        Separated(randDeg, randSep);
      }
      state[0] := x;
      ChainStarts(x);
      var lim := 50;
      if randType != 0 {
        FillTable(x);
        fptr := randSep;
        rptr := 0;
        lim := 10 * randDeg;
        first := FirstValues(state[..], randSep);
        steps := 0;
        WindowStarts(state[..], randDeg, randSep);
        QuotientOf(10 * randDeg, randDeg, 10, 0);
      }
      var i := 0;
      ghost var values := first;
      while i < lim
        invariant 0 <= i <= lim && Valid() && first == values
        invariant randType == 0 ==> state[0] == Chain(x, i)
        invariant randType != 0 ==> steps == i
      {
        ChainNext(x, i);
        var _ := Next();
        i := i + 1;
      }
    }

    /** The rest of the table is the chain that begins with its first word. */
    method FillTable(x: Uint32)
      requires state.Length == randDeg > 0 && state[0] == x
      modifies state
      ensures state[..] == seq(randDeg, i requires i >= 0 => Chain(x, i))
    {
      var i := 1;
      while i < randDeg
        invariant 1 <= i <= randDeg
        invariant forall j :: 0 <= j < i ==> state[j] == Chain(x, j)
      {
        state[i] := GoodRandWord(state[i - 1]);
        i := i + 1;
      }
    }

    /** initState, with n bytes for the state: the most of them that a generator can use. */
    constructor InitState(s: Uint32, n: nat)
      requires 8 <= n
      ensures Valid()
      ensures randType == (if n < 32 then 0 else if n < 64 then 1 else if n < 128 then 2 else if n < 256 then 3 else 4)
      ensures (randDeg, randSep) ==
              if n < 32 then (0, 0) else if n < 64 then (7, 3) else if n < 128 then (15, 1)
              else if n < 256 then (31, 3) else (63, 1)
      ensures 4 * (1 + state.Length) <= n
      ensures randType == 0 ==> state[0] == Chain(s, 50)
      ensures randType != 0 ==>
                && first == FirstValues(seq(randDeg, i requires i >= 0 => Chain(s, i)), randSep)
                && steps == 10 * randDeg && rptr == 0 && fptr == randSep
    {
      var kind, deg, sep;
      if n < 32 {
        kind, deg, sep := 0, 0, 0;
      } else if n < 64 {
        kind, deg, sep := 1, 7, 3;
      } else if n < 128 {
        kind, deg, sep := 2, 15, 1;
      } else if n < 256 {
        kind, deg, sep := 3, 31, 3;
      } else {
        kind, deg, sep := 4, 63, 1;
      }
      randType, randDeg, randSep := kind, deg, sep;
      state := new Uint32[if kind == 0 then 1 else deg];
      fptr, rptr, first, steps := 0, 0, [], 0;
      new;
      Seed(s);
    }
  }

  /** The pointers stay apart, never wrap on the same call, and the rear one counts the steps. */
  lemma PointersMove(deg: nat, sep: nat, f: nat, r: nat, steps: nat)
    requires IsTrinomial(deg, sep) && Apart(deg, sep, f, r) && r == steps % deg
    ensures f < deg && r < deg && !(f + 1 == deg && r + 1 == deg)
    ensures var f' := if f + 1 == deg then 0 else f + 1;
            var r' := if r + 1 == deg then 0 else r + 1;
            Apart(deg, sep, f', r') && r' == (steps + 1) % deg
  {
    Separated(deg, sep);
    NextResidue(steps, deg);
    hide IsTrinomial;
  }

  lemma Separated(deg: nat, sep: nat)
    requires IsTrinomial(deg, sep)
    ensures 0 < sep < deg
  {
  }

  lemma ChainStarts(x: Uint32)
    ensures Chain(x, 0) == x
  {
  }

  lemma ChainNext(x: Uint32, n: nat)
    ensures Chain(x, n + 1) == GoodRandWord(Chain(x, n))
  {
  }

  lemma WindowStarts(table: seq<Uint32>, deg: nat, sep: nat)
    requires IsTrinomial(deg, sep) && |table| == deg
    ensures Window(table, FirstValues(table, sep), deg, sep, 0, sep)
  {
  }

  lemma XNext(first: seq<Uint32>, deg: nat, sep: nat, n: nat)
    requires IsTrinomial(deg, sep) && |first| == deg
    ensures X(first, deg, sep, n + deg) == (X(first, deg, sep, n) + X(first, deg, sep, n + (deg - sep))) % TWO_32
  {
  }

  lemma NextResidue(n: nat, d: nat)
    requires d > 0
    ensures (n + 1) % d == if n % d + 1 == d then 0 else n % d + 1
  {
    var q, r := n / d, n % d;
    assert n == d * q + r;
    if r + 1 == d {
      assert d * (q + 1) == d * q + d;
      QuotientOf(n + 1, d, q + 1, 0);
    } else {
      QuotientOf(n + 1, d, q, r + 1);
    }
  }
}
