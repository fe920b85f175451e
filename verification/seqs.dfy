/** Sequences of pieces laid end to end: the shape shared by every list the decoder reads or writes. */
module Seqs {

  /** The pieces, one after the other. */
  function Concat<T>(pieces: seq<seq<T>>): seq<T> {
    if pieces == [] then [] else pieces[0] + Concat(pieces[1..])
  }

  /** Where each piece starts when the pieces are laid out from `pos` on, and where the last one ends. */
  function Offsets<T>(pieces: seq<seq<T>>, pos: nat): (ends: seq<nat>)
    ensures |ends| == |pieces| + 1 && ends[0] == pos
  {
    if pieces == [] then [pos] else [pos] + Offsets(pieces[1..], pos + |pieces[0]|)
  }

  /** Each piece starts where the previous one ends, and the last ends after all of them. */
  lemma {:induction false} OffsetsStep<T>(pieces: seq<seq<T>>, pos: nat)
    ensures forall i :: 0 <= i < |pieces| ==> Offsets(pieces, pos)[i + 1] == Offsets(pieces, pos)[i] + |pieces[i]|
    ensures Offsets(pieces, pos)[|pieces|] == pos + |Concat(pieces)|
    decreases |pieces|
  {
    if pieces != [] {
      var ends, rest := Offsets(pieces, pos), Offsets(pieces[1..], pos + |pieces[0]|);
      OffsetsStep(pieces[1..], pos + |pieces[0]|);
      forall i | 1 <= i < |pieces| ensures ends[i + 1] == ends[i] + |pieces[i]| {
        assert ends[i] == rest[i - 1] && ends[i + 1] == rest[i] && pieces[i] == pieces[1..][i - 1];
      }
    }
  }

  /** Item `k` of piece `j` sits at the piece's offset plus `k` in the concatenation. */
  lemma {:induction false} ConcatIndex<T>(pieces: seq<seq<T>>, j: nat, k: nat)
    requires j < |pieces| && k < |pieces[j]|
    ensures Offsets(pieces, 0)[j] + k < |Concat(pieces)|
    ensures Concat(pieces)[Offsets(pieces, 0)[j] + k] == pieces[j][k]
    decreases j
  {
    OffsetsStep(pieces, 0);
    if j > 0 {
      ConcatIndex(pieces[1..], j - 1, k);
      OffsetsShift(pieces[1..], 0, |pieces[0]|);
      assert Offsets(pieces, 0)[j] == Offsets(pieces[1..], |pieces[0]|)[j - 1];
    }
  }

  /** Laying the pieces out further on moves every offset by the same amount. */
  lemma {:induction false} OffsetsShift<T>(pieces: seq<seq<T>>, pos: nat, d: nat)
    ensures forall i :: 0 <= i <= |pieces| ==> Offsets(pieces, pos + d)[i] == Offsets(pieces, pos)[i] + d
    decreases |pieces|
  {
    if pieces != [] {
      OffsetsShift(pieces[1..], pos + |pieces[0]|, d);
      assert pos + d + |pieces[0]| == pos + |pieces[0]| + d;
      forall i | 1 <= i <= |pieces| ensures Offsets(pieces, pos + d)[i] == Offsets(pieces, pos)[i] + d {
        assert Offsets(pieces, pos + d)[i] == Offsets(pieces[1..], pos + |pieces[0]| + d)[i - 1];
        assert Offsets(pieces, pos)[i] == Offsets(pieces[1..], pos + |pieces[0]|)[i - 1];
      }
    }
  }

  /** A later piece starts no earlier than where an earlier piece ends. */
  lemma {:induction false} OffsetsMonotone<T>(pieces: seq<seq<T>>, pos: nat, i: nat, j: nat)
    requires i < j <= |pieces|
    ensures Offsets(pieces, pos)[i] + |pieces[i]| <= Offsets(pieces, pos)[j]
    decreases j - i
  {
    OffsetsStep(pieces, pos);
    if i + 1 < j {
      OffsetsMonotone(pieces, pos, i, j - 1);
    }
  }

  /** Each place in the concatenation belongs to one piece and one index in it. */
  lemma ConcatPlaceUnique<T>(pieces: seq<seq<T>>, j: nat, k: nat, j': nat, k': nat)
    requires j < |pieces| && k < |pieces[j]| && j' < |pieces| && k' < |pieces[j']|
    requires Offsets(pieces, 0)[j] + k == Offsets(pieces, 0)[j'] + k'
    ensures j == j' && k == k'
  {
    if j < j' {
      OffsetsMonotone(pieces, 0, j, j');
    } else if j' < j {
      OffsetsMonotone(pieces, 0, j', j);
    }
  }

  /** Every place in the concatenation is some index of some piece. */
  lemma {:induction false} ConcatLocate<T>(pieces: seq<seq<T>>, i: nat) returns (j: nat, k: nat)
    requires i < |Concat(pieces)|
    ensures j < |pieces| && k < |pieces[j]| && Offsets(pieces, 0)[j] + k == i
    decreases |pieces|
  {
    if i < |pieces[0]| {
      j, k := 0, i;
    } else {
      var j', k' := ConcatLocate(pieces[1..], i - |pieces[0]|);
      OffsetsShift(pieces[1..], 0, |pieces[0]|);
      assert Offsets(pieces, 0)[j' + 1] == Offsets(pieces[1..], |pieces[0]|)[j'];
      j, k := j' + 1, k';
    }
  }

  /** Pieces of the same lengths, whatever they hold, have the same offsets and the same total length. */
  lemma {:induction false} OffsetsSameShape<T, U>(p: seq<seq<T>>, q: seq<seq<U>>, pos: nat)
    requires |p| == |q| && forall j :: 0 <= j < |p| ==> |p[j]| == |q[j]|
    ensures Offsets(p, pos) == Offsets(q, pos) && |Concat(p)| == |Concat(q)|
    decreases |p|
  {
    if p != [] {
      assert |p[0]| == |q[0]|;
      OffsetsSameShape(p[1..], q[1..], pos + |p[0]|);
    }
  }
}
