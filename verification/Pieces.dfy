/** A sequence that comes in pieces. */
module Pieces {

  /** The pieces put together. */
  function Flat<T>(pieces: seq<seq<T>>): seq<T> {
    if pieces == [] then [] else Flat(pieces[..|pieces| - 1]) + pieces[|pieces| - 1]
  }

  lemma {:induction false} FlatPrefix<T>(pieces: seq<seq<T>>, i: nat)
    requires i < |pieces|
    ensures Flat(pieces[..i + 1]) == Flat(pieces[..i]) + pieces[i] && Flat(pieces[..i + 1]) <= Flat(pieces)
    decreases |pieces| - i
  {
    assert pieces[..i + 1][..i] == pieces[..i];
    if i + 1 < |pieces| {
      FlatPrefix(pieces, i + 1);
    } else {
      assert pieces[..i + 1] == pieces;
    }
  }

  lemma FlatNone<T>(pieces: seq<seq<T>>)
    ensures Flat(pieces[..0]) == []
  {
  }
}
