/** Runs of consecutive characters, by halves of an alphabet. */
module Alphabets {

  /** Half an alphabet, from `first` on. */
  predicate RunFrom(half: string, first: char) {
    && |half| == 13
    && forall i :: 0 <= i < 13 ==> half[i] as int == first as int + i
  }

  lemma HalvesAre()
    ensures RunFrom("abcdefghijklm", 'a') && RunFrom("nopqrstuvwxyz", 'n')
    ensures RunFrom("ABCDEFGHIJKLM", 'A') && RunFrom("NOPQRSTUVWXYZ", 'N')
  {
  }

  lemma AmongRun(half: string, first: char, c: char)
    requires RunFrom(half, first)
    ensures c in half <==> first as int <= c as int < first as int + 13
  {
    if first as int <= c as int < first as int + 13 {
      assert half[c as int - first as int] == c;
    }
  }
}
