// What several of the programs share: bytes, optional results, and data in pieces.
module Common {

  type Byte = x: nat | x < 256

  datatype Option<T> = None | Some(value: T)

  // What reads or writes in pieces come to
  function Flat(pieces: seq<seq<Byte>>): seq<Byte> {
    if pieces == [] then [] else Flat(pieces[..|pieces| - 1]) + pieces[|pieces| - 1]
  }

  lemma FlatMore(pieces: seq<seq<Byte>>, piece: seq<Byte>)
    ensures Flat(pieces + [piece]) == Flat(pieces) + piece
  {
    assert (pieces + [piece])[..|pieces|] == pieces;
  }

  predicate AllFull(pieces: seq<seq<Byte>>, size: nat) {
    forall i :: 0 <= i < |pieces| ==> |pieces[i]| == size
  }
}
