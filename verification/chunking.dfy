/**
 * The handler's `chunks(n)`: the element indices 0, 1, ..., n - 1 cut into
 * consecutive runs, each of which the data section stores behind its own constant
 * flag. The handler's chunk size is not visible, so it is a positive parameter `c`:
 * every run holds `c` indices except the last, which holds the rest.
 */
module Chunking {
  import opened Seqs

  /** The indices lo, lo + 1, ..., hi - 1. */
  function Range(lo: nat, hi: nat): (r: seq<nat>)
    requires lo <= hi
    ensures |r| == hi - lo
    ensures forall i :: 0 <= i < |r| ==> r[i] == lo + i
  {
    seq(hi - lo, i requires 0 <= i < hi - lo => lo + i)
  }

  /** The `n` indices from `lo` on, cut into runs of `c`, the last run possibly shorter. */
  function ChunksFrom(lo: nat, n: nat, c: nat): (r: seq<seq<nat>>)
    requires c > 0
    ensures Concat(r) == Range(lo, lo + n)
    ensures forall j :: 0 <= j < |r| ==> 0 < |r[j]| <= c
    ensures forall j :: 0 <= j < |r| - 1 ==> |r[j]| == c
    decreases n
  {
    if n == 0 then []
    else if n <= c then
      var r := [Range(lo, lo + n)];
      assert Concat(r) == r[0] + Concat(r[1..]) && r[1..] == [];
      r
    else
      var first, rest := Range(lo, lo + c), ChunksFrom(lo + c, n - c, c);
      var r := [first] + rest;
      assert r[1..] == rest;
      assert Range(lo, lo + n) == first + Range(lo + c, lo + n);
      r
  }

  /** `chunks(n)`: the indices 0 .. n - 1 in runs of `c`. */
  function Chunks(n: nat, c: nat): (r: seq<seq<nat>>)
    requires c > 0
    ensures Concat(r) == Range(0, n)
  {
    ChunksFrom(0, n, c)
  }

  /** Enough runs of `c` for `n` indices, and one fewer would not do. */
  lemma {:induction false} ChunksFromCount(lo: nat, n: nat, c: nat)
    requires c > 0
    ensures var m := |ChunksFrom(lo, n, c)|;
      && (n == 0 <==> m == 0)
      && n <= m * c
      && (m > 0 ==> (m - 1) * c < n)
    decreases n
  {
    if n > c {
      var m := |ChunksFrom(lo + c, n - c, c)|;
      ChunksFromCount(lo + c, n - c, c);
      assert (m + 1) * c == m * c + c;
      assert (m + 1 - 1) * c == (m - 1) * c + c;
    }
  }

  /** How many runs `chunks(n)` makes: the fewest runs of `c` that hold `n` indices. */
  lemma ChunkCount(n: nat, c: nat)
    requires c > 0
    ensures var m := |Chunks(n, c)|;
      && (n == 0 <==> m == 0)
      && n <= m * c
      && (m > 0 ==> (m - 1) * c < n)
  {
    ChunksFromCount(0, n, c);
  }

  /** The runs cover 0 .. n - 1 exactly once, in order: index `i` sits in one run, at one place. */
  lemma ChunksExactlyOnce(n: nat, c: nat, i: nat)
    requires c > 0 && i < n
    ensures var ch := Chunks(n, c);
      && (exists j, k :: 0 <= j < |ch| && 0 <= k < |ch[j]| && ch[j][k] == i)
      && forall j, k, j', k' ::
           0 <= j < |ch| && 0 <= k < |ch[j]| && 0 <= j' < |ch| && 0 <= k' < |ch[j']| && ch[j][k] == i && ch[j'][k'] == i
           ==> j == j' && k == k'
  {
    var ch := Chunks(n, c);
    var j, k := ConcatLocate(ch, i);
    ChunkPlace(n, c, j, k);
    forall j, k, j', k' |
      0 <= j < |ch| && 0 <= k < |ch[j]| && 0 <= j' < |ch| && 0 <= k' < |ch[j']| && ch[j][k] == i && ch[j'][k'] == i
      ensures j == j' && k == k'
    {
      ChunkPlace(n, c, j, k);
      ChunkPlace(n, c, j', k');
      ConcatPlaceUnique(ch, j, k, j', k');
    }
  }

  /** Index `k` of run `j` is the element at that run's offset plus `k`. */
  lemma ChunkPlace(n: nat, c: nat, j: nat, k: nat)
    requires c > 0 && j < |Chunks(n, c)| && k < |Chunks(n, c)[j]|
    ensures Chunks(n, c)[j][k] == Offsets(Chunks(n, c), 0)[j] + k
  {
    ConcatIndex(Chunks(n, c), j, k);
  }
}
