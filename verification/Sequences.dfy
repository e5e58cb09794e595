/** A stream that comes in pieces. */
module Sequences {

  function Flatten<T>(pieces: seq<seq<T>>): seq<T> {
    if pieces == [] then [] else pieces[0] + Flatten(pieces[1..])
  }

  /** The index of the first false, or the length. */
  function FirstFalse(bs: seq<bool>): (k: nat)
    ensures k <= |bs| && (forall j :: 0 <= j < k ==> bs[j]) && (k < |bs| ==> !bs[k])
  {
    if bs == [] || !bs[0] then 0
    else
      var k := FirstFalse(bs[1..]);
      assert forall j :: 0 < j <= k ==> bs[j] == bs[1..][j - 1];
      k + 1
  }

  lemma {:induction false} FlattenLast<T>(pieces: seq<seq<T>>)
    requires pieces != []
    ensures Flatten(pieces) == Flatten(pieces[..|pieces| - 1]) + pieces[|pieces| - 1]
  {
    var n := |pieces| - 1;
    if n == 0 {
      assert pieces[..0] == [] && pieces[1..] == [];
    } else {
      FlattenLast(pieces[1..]);
      assert pieces[1..][..n - 1] == pieces[..n][1..];
    }
  }
}
